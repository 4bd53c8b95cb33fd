# GlacierPy command-line front end, modelled in Dafny

GlacierPy is a small command-line tool that uploads files to, and downloads
archives from, an Amazon Glacier vault:

    glacier.py upload   datacenter:vault filename description...
    glacier.py download datacenter:vault archiveID outputfile

Chunking, tree hashing and concurrent part transfer are all done by the boto
library, which the script calls as a black box. The script's own logic is its
argument handling, a few checks before each transfer (does the file exist,
does the vault exist), the loop that polls a retrieval job until it completes,
and its console output. This project models the argument handling and the
vault-name check, and proves things about them:

- `PyStrings` (`strings.dfy`) models the Python string operations the script
  uses: `str.find` with a one-character needle and `" ".join`, plus
  `str.split` as the inverse of `join` against which the joined description
  is checked.
- `Glacier` (`glacier.py` in the source, `glacier.dfy` here) models
  `getVaultTuple` (splitting `datacenter:vault` at the first colon, with
  `us-east-1` as the default region), the argument handling of
  `uploadCommand` and `downloadCommand`, the guards and dispatch of `main`
  as a classifier from `argv` to `Usage | Upload(args) | Download(args)`,
  and `is_valid_vault` over a vault list supplied by the caller.

The main results: a vault reference splits uniquely, so a colon-free
datacenter joined to any vault name by a colon parses back into exactly
those two. An argument list that `main` dispatches always has at least three
entries, so every index `uploadCommand` and `downloadCommand` read is in
range. Through `main`, an upload always has at least one description word,
so the file-name fallback for the description is never taken.

## Model

| member | source | states |
|---|---|---|
| `PyStrings.Find` | glacier.py:46 | `str.find`: -1 exactly when the character is absent; otherwise an in-range index holding it with no earlier occurrence |
| `PyStrings.FindAfterPrefix` | glacier.py:46 | the first colon after a colon-free prefix is found right at the end of that prefix |
| `PyStrings.Join` | glacier.py:57 | `" ".join`: a non-empty join starts with the first part, and with two or more parts there is room for the separator after it |
| `PyStrings.JoinLength` | glacier.py:57 | a join is as long as its parts together plus one separator between each pair of neighbours |
| `PyStrings.SplitJoin` | glacier.py:57 | joining at a separator that occurs in no part is undone by splitting at it (the words are recoverable) |
| `PyStrings.JoinSplit` | glacier.py:57 | splitting at a character and joining with it gives back the original string (the other direction of the round trip) |
| `Glacier.GetVaultTuple` | glacier.py:42-49 | no colon gives `('us-east-1', input)`; with a colon the datacenter is colon-free and datacenter, `:` and vault concatenate back to the input; never fails |
| `Glacier.ParseVaultRef` | glacier.py:45-48 | the split is unique: a colon-free datacenter, a colon and any vault (colons allowed) parse back into exactly that datacenter and vault |
| `Glacier.VaultRefLength` | glacier.py:46-48 | with a colon present, the datacenter's length plus one plus the vault's length equals the input's length |
| `Glacier.EmptyDatacenter` | glacier.py:46-48 | `":v"` gives an empty datacenter (not the default) and vault `v`, without error |
| `Glacier.EmptyVault` | glacier.py:46-48 | `"dc:"` gives datacenter `dc` and an empty vault, without error |
| `Glacier.UploadCommand` | glacier.py:51-59 | filename is `arguments[1]` and the vault reference is parsed from `arguments[0]`; the description is the file name with no extra words, a single extra word verbatim, and otherwise the words with single spaces between them (length, and splitting at spaces gives the words back) |
| `Glacier.DescriptionWords` | glacier.py:56-57 | description words that hold no space are recovered by splitting the joined description at spaces |
| `Glacier.Dispatch` | glacier.py:122-145 | upload exactly when `argv` has at least five entries and the command is `upload`, download likewise; usage (with `argv[0]`) in every other case; a dispatched list is `argv[2:]` and has at least three entries |
| `Glacier.MainUpload` | glacier.py:132-137 | an upload through `main` takes the vault from `argv[2]`, the file from `argv[3]` and the description from `argv[4:]` joined, so the file-name fallback is unreachable |
| `Glacier.MainDownload` | glacier.py:79-83 | the contract of `downloadCommand`'s argument handling (`DownloadCommand`) as `main` calls it: vault reference, archive id and output file come from `argv[2]`, `argv[3]`, `argv[4]`, and those indexes are in range |
| `Glacier.VaultNames` | glacier.py:38 | the list comprehension keeps one name per listed vault, in order, each that vault's `VaultName` |
| `Glacier.IsValidVault` | glacier.py:34-40 | true exactly when some listed vault's `VaultName` equals the given name |

## Left out

- Every boto call: `Layer1` construction, `list_vaults`, `connect_to_region`, `get_vault`, `retrieve_archive`, `get_job`, `ConcurrentUploader` and `ConcurrentDownloader` (glacier.py:36, 67, 86, 93, 101-102, 107-119). Their behaviour lives in a library that is not part of this model. So do the part size of 32 MiB, tree hashing, chunking and concurrent transfer.
- `upload_file` (glacier.py:100-103): it only forwards to boto.
- `download_archive` (glacier.py:105-119): printing the job id, and the loop that re-fetches the job with `get_job` and sleeps 600 seconds until the job reports `completed`, then hands it to boto's downloader. Its only state comes from the remote service and the clock.
- The checks in `uploadCommand` and `downloadCommand` that the file exists and the vault exists, each exiting with status 1 when it fails, and their order before the transfer (glacier.py:61-72, 88-91): they need the file system and the service.
- `IsValidVault`: the vault list is a parameter; the remote `list_vaults` call and the `datacenter`/`layer1` defaults used only to build a connection are not modelled.
- `IsValidVault` requires every listed record to carry a `VaultName` key, so the `KeyError` that `x['VaultName']` would raise for a record without one (glacier.py:38) is not modelled; the service's vault list always carries the key.
- `Dispatch` requires a non-empty `argv`, so the `IndexError` that `main([])` would raise at `print_usage(argv[0])` (glacier.py:126) is not modelled; the interpreter always puts the script name in `argv[0]`.
- `os.path.isfile`, `print`, `print_usage`'s text, `sys.exit` and the CSV line with `date.today()` (glacier.py:27-32, 62-64, 70-72, 77, 89-91): file-system, console, process and clock effects. `Dispatch`'s `Usage` result stands for "print usage, exit with status 1".
- The hard-coded credentials and module globals (glacier.py:19-25): configuration, not logic.
