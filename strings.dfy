/**
  The three Python string operations the command-line front end relies on,
  over `string` (= `seq<char>`): `str.find` with a one-character needle,
  `sep.join(parts)`, and `str.split(sep)` with a one-character separator.
  `split` is not called by the front end; it is the inverse of `join` used
  to state what a joined description still holds.
 */
module PyStrings {

  /** `s.find(c)`: the index of the first occurrence of `c`, or -1 when `c` does not occur. */
  function Find(s: string, c: char): (r: int)
    ensures -1 <= r < |s|
    ensures r == -1 <==> c !in s
    ensures r >= 0 ==> s[r] == c && c !in s[..r]
  {
    if |s| == 0 then -1
    else if s[0] == c then 0
    else
      var k := Find(s[1..], c);
      if k == -1 then -1 else k + 1
  }

  /** The first occurrence of `c` in `p + [c] + rest` is the one right after `p` when `p` has none. */
  lemma FindAfterPrefix(p: string, c: char, rest: string)
    requires c !in p
    ensures Find(p + [c] + rest, c) == |p|
  {
    var s := p + [c] + rest;
    assert s[|p|] == c;
    assert s[..|p|] == p;
  }

  /** `sep.join(parts)`: the parts in order with `sep` between neighbours; `""` for no parts. */
  function Join(parts: seq<string>, sep: string): (r: string)
    ensures |parts| > 0 ==> |parts[0]| <= |r| && r[..|parts[0]|] == parts[0]
    ensures |parts| > 1 ==> |r| >= |parts[0]| + |sep|
  {
    if |parts| == 0 then ""
    else if |parts| == 1 then parts[0]
    else parts[0] + sep + Join(parts[1..], sep)
  }

  /** A join is as long as its parts together plus one separator between each pair of neighbours. */
  lemma {:induction false} JoinLength(parts: seq<string>, sep: string)
    requires |parts| >= 1
    ensures |Join(parts, sep)| == TotalLength(parts) + (|parts| - 1) * |sep|
  {
    if |parts| > 1 {
      JoinLength(parts[1..], sep);
    }
  }

  /** The summed length of all parts. */
  function TotalLength(parts: seq<string>): nat
  {
    if |parts| == 0 then 0 else |parts[0]| + TotalLength(parts[1..])
  }

  /**
    `s.split(c)`: the maximal pieces of `s` between occurrences of `c`; an
    empty string and adjacent separators yield empty pieces, so there is
    always one more piece than there are separators.
   */
  function Split(s: string, c: char): (r: seq<string>)
    ensures |r| >= 1
    ensures forall i :: 0 <= i < |r| ==> c !in r[i]
    decreases |s|
  {
    var i := Find(s, c);
    if i < 0 then [s] else [s[..i]] + Split(s[i + 1..], c)
  }

  /** Splitting a join at its separator gives the parts back, when no part holds the separator. */
  lemma {:induction false} SplitJoin(parts: seq<string>, c: char)
    requires |parts| >= 1
    requires forall part :: part in parts ==> c !in part
    ensures Split(Join(parts, [c]), c) == parts
  {
    var head, tail := parts[0], parts[1..];
    assert head in parts;
    if |tail| >= 1 {
      var s := Join(parts, [c]);
      var rest := Join(tail, [c]);
      assert parts == [head] + tail;
      JoinCons(head, tail, [c]);
      FindAfterPrefix(head, c, rest);
      assert s[..|head|] == head;
      assert s[|head| + 1..] == rest;
      forall part | part in tail ensures c !in part {
        assert part in parts;
      }
      SplitJoin(tail, c);
    }
  }

  /** Joining the pieces of a split with the same separator gives the string back. */
  lemma {:induction false} JoinSplit(s: string, c: char)
    ensures Join(Split(s, c), [c]) == s
    decreases |s|
  {
    if c in s {
      var i := Find(s, c);
      SplitAt(s, c);
      JoinSplit(s[i + 1..], c);
      JoinCons(s[..i], Split(s[i + 1..], c), [c]);
    }
  }

  /** A string holding the separator splits into the piece before its first occurrence and the split of the rest. */
  lemma {:induction false} SplitAt(s: string, c: char)
    requires c in s
    ensures var i := Find(s, c);
      && Split(s, c) == [s[..i]] + Split(s[i + 1..], c)
      && s == s[..i] + [c] + s[i + 1..]
  {
    var i := Find(s, c);
    assert s == s[..i] + [c] + s[i + 1..];
  }

  /** Joining a part in front of at least one more part puts one separator between them. */
  lemma JoinCons(head: string, rest: seq<string>, sep: string)
    requires |rest| >= 1
    ensures Join([head] + rest, sep) == head + sep + Join(rest, sep)
  {
  }
}
