/**
  The command-line front end of the Glacier archive tool: how `argv` is
  classified into a usage error, an upload or a download; how a vault
  reference `datacenter:vault` is split; how an upload's description is
  derived from the trailing arguments; and how a vault name is checked
  against the vault list the service returned. The transfers themselves
  (and every call into the service) are not part of this model.
 */
module Glacier {
  import opened PyStrings

  /** The region used when a vault reference names none. */
  const DefaultDatacenter: string := "us-east-1"

  /** A vault reference split into its datacenter (region) and vault name. */
  datatype VaultRef = VaultRef(datacenter: string, vault: string)

  /**
    `getVaultTuple`: the text before the first colon is the datacenter and
    everything after it the vault; with no colon the whole text is the vault
    and the datacenter is the default one. It never fails.
   */
  function GetVaultTuple(vaultString: string): (r: VaultRef)
    ensures ':' !in vaultString ==> r == VaultRef(DefaultDatacenter, vaultString)
    ensures ':' in vaultString ==> ':' !in r.datacenter && r.datacenter + ":" + r.vault == vaultString
  {
    if ':' in vaultString then
      var colon := Find(vaultString, ':');
      VaultRef(vaultString[..colon], vaultString[colon + 1..])
    else
      VaultRef(DefaultDatacenter, vaultString)
  }

  /**
    The split is unique: any colon-free datacenter joined to any vault
    (colons allowed in it) by a colon is parsed back into exactly those two.
   */
  lemma ParseVaultRef(datacenter: string, vault: string)
    requires ':' !in datacenter
    ensures GetVaultTuple(datacenter + ":" + vault) == VaultRef(datacenter, vault)
  {
    var s := datacenter + ":" + vault;
    FindAfterPrefix(datacenter, ':', vault);
    assert s == datacenter + [':'] + vault;
    assert s[..|datacenter|] == datacenter;
    assert s[|datacenter| + 1..] == vault;
  }

  /** A reference with a colon keeps every character: the two pieces and the colon make up the input. */
  lemma VaultRefLength(vaultString: string)
    requires ':' in vaultString
    ensures var r := GetVaultTuple(vaultString);
      |r.datacenter| + 1 + |r.vault| == |vaultString|
  {
  }

  /** `":v"` names an empty datacenter rather than the default one. */
  lemma EmptyDatacenter(vault: string)
    ensures GetVaultTuple(":" + vault) == VaultRef("", vault)
  {
  }

  /** `"dc:"` names an empty vault. */
  lemma EmptyVault(datacenter: string)
    requires ':' !in datacenter
    ensures GetVaultTuple(datacenter + ":") == VaultRef(datacenter, "")
  {
  }

  /** What `uploadCommand` derives from its arguments before it touches the file system or the service. */
  datatype UploadRequest = UploadRequest(vaultRef: VaultRef, filename: string, description: string)

  /** What `downloadCommand` derives from its arguments before it touches the service. */
  datatype DownloadRequest = DownloadRequest(vaultRef: VaultRef, archiveId: string, outputFile: string)

  /**
    `uploadCommand`'s argument handling: `arguments[0]` is the vault
    reference and `arguments[1]` the file. The description is the file name
    when no further words are given; otherwise it is those words with single
    spaces between them, so one word is taken verbatim and, when no word holds
    a space, splitting the description at spaces gives the words back.
    The source indexes `arguments[1]`, so it needs at least two arguments.
   */
  function UploadCommand(arguments: seq<string>): (r: UploadRequest)
    requires |arguments| >= 2
    ensures r.filename == arguments[1] && r.vaultRef == GetVaultTuple(arguments[0])
    ensures |arguments| == 2 ==> r.description == r.filename
    ensures |arguments| == 3 ==> r.description == arguments[2]
    ensures |arguments| > 2 ==> |r.description| == TotalLength(arguments[2..]) + |arguments| - 3
    ensures |arguments| > 2 && (forall w :: w in arguments[2..] ==> ' ' !in w) ==>
      Split(r.description, ' ') == arguments[2..]
  {
    var filename := arguments[1];
    var vaultRef := GetVaultTuple(arguments[0]);
    if |arguments| > 2 then
      JoinLength(arguments[2..], " ");
      DescriptionWords(arguments[2..]);
      UploadRequest(vaultRef, filename, Join(arguments[2..], " "))
    else
      UploadRequest(vaultRef, filename, filename)
  }

  /** Description words without spaces survive being joined into one description. */
  lemma DescriptionWords(words: seq<string>)
    requires |words| >= 1
    ensures (forall w :: w in words ==> ' ' !in w) ==> Split(Join(words, " "), ' ') == words
  {
    if forall w :: w in words ==> ' ' !in w {
      SplitJoin(words, ' ');
    }
  }

  /**
    `downloadCommand`'s argument handling: vault reference, archive
    identifier and output file, in that order. The source indexes
    `arguments[2]`, so it needs at least three arguments.
   */
  function DownloadCommand(arguments: seq<string>): DownloadRequest
    requires |arguments| >= 3
  {
    DownloadRequest(GetVaultTuple(arguments[0]), arguments[1], arguments[2])
  }

  /** The outcome of `main`'s argument checks. */
  datatype Command =
    | Usage(programName: string)           // print the usage text for argv[0], exit with status 1
    | Upload(arguments: seq<string>)      // uploadCommand(argv[2:])
    | Download(arguments: seq<string>)    // downloadCommand(argv[2:])

  /**
    `main`'s dispatch. Fewer than three words, an unknown command, or a known
    command with fewer than five words is a usage error; otherwise the words
    after the command go to the command. The usage path reads `argv[0]`,
    which the interpreter always supplies (the script name).
   */
  function Dispatch(argv: seq<string>): (c: Command)
    requires |argv| >= 1
    ensures c.Upload? <==> |argv| >= 5 && argv[1] == "upload"
    ensures c.Download? <==> |argv| >= 5 && argv[1] == "download"
    ensures c.Usage? <==> |argv| < 5 || (argv[1] != "upload" && argv[1] != "download")
    ensures c.Usage? ==> c.programName == argv[0]
    ensures !c.Usage? ==> c.arguments == argv[2..] && |c.arguments| >= 3
  {
    if |argv| < 3 then Usage(argv[0])
    else
      var command := argv[1];
      if command == "upload" then
        if |argv| < 5 then Usage(argv[0]) else Upload(argv[2..])
      else if command == "download" then
        if |argv| < 5 then Usage(argv[0]) else Download(argv[2..])
      else Usage(argv[0])
  }

  /**
    An upload reached through `main` always has a description word, so the
    file-name fallback never applies there: the vault reference is `argv[2]`,
    the file `argv[3]`, and the description `argv[4:]` joined by spaces.
   */
  lemma MainUpload(argv: seq<string>)
    requires |argv| >= 5 && argv[1] == "upload"
    ensures Dispatch(argv).Upload?
    ensures var r := UploadCommand(Dispatch(argv).arguments);
      && r.vaultRef == GetVaultTuple(argv[2])
      && r.filename == argv[3]
      && r.description == Join(argv[4..], " ")
      && r.description[..|argv[4]|] == argv[4]
  {
  }

  /** A download reached through `main` takes its three fields from `argv[2]`, `argv[3]` and `argv[4]`. */
  lemma MainDownload(argv: seq<string>)
    requires |argv| >= 5 && argv[1] == "download"
    ensures Dispatch(argv).Download?
    ensures DownloadCommand(Dispatch(argv).arguments)
      == DownloadRequest(GetVaultTuple(argv[2]), argv[3], argv[4])
  {
  }

  /** One entry of the service's `VaultList`: a record of string fields. */
  type VaultRecord = map<string, string>

  /** Every entry carries the `VaultName` field that `is_valid_vault` reads. */
  predicate HasVaultNames(vaultList: seq<VaultRecord>)
  {
    forall i :: 0 <= i < |vaultList| ==> "VaultName" in vaultList[i]
  }

  /** The names of the listed vaults, in list order. */
  function VaultNames(vaultList: seq<VaultRecord>): (names: seq<string>)
    requires HasVaultNames(vaultList)
    ensures |names| == |vaultList|
    ensures forall i :: 0 <= i < |names| ==> names[i] == vaultList[i]["VaultName"]
  {
    if |vaultList| == 0 then []
    else [vaultList[0]["VaultName"]] + VaultNames(vaultList[1..])
  }

  /**
    `is_valid_vault`, with the service's vault list passed in: the vault is
    valid exactly when some listed vault has that name.
   */
  function IsValidVault(vault: string, vaultList: seq<VaultRecord>): (valid: bool)
    requires HasVaultNames(vaultList)
    ensures valid <==> exists i :: 0 <= i < |vaultList| && vaultList[i]["VaultName"] == vault
  {
    vault in VaultNames(vaultList)
  }
}
