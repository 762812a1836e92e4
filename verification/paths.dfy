/** Where a download is put (transfer/receiver.c): the name comes from a peer and must stay inside the folder. */
module Paths {
  import opened Addresses
  import opened Wrappers
  import opened Decimals
  import opened Identity

  const PATH_MAX: nat := 4096

  predicate IsPathSeparator(c: char) {
    c == '/' || c == '\\'
  }

  /** strrchr: the last position of a character. */
  function LastOf(s: string, c: char): (at: Option<nat>)
    ensures at.Some? ==> at.value < |s| && s[at.value] == c
    ensures forall k :: 0 <= k < |s| && (at.None? || at.value < k) ==> s[k] != c
  {
    if s == "" then None
    else if s[|s| - 1] == c then Some(|s| - 1)
    else LastOf(s[..|s| - 1], c)
  }

  /** download_name_from_source: what follows the last separator, unless that is empty or a dot name. */
  function DownloadName(source: string): Option<string> {
    if source == "" then None
    else
      var slash, backslash := LastOf(source, '/'), LastOf(source, '\\');
      var name :=
        if slash.Some? && backslash.Some? then
          (if slash.value > backslash.value then source[slash.value + 1..] else source[backslash.value + 1..])
        else if slash.Some? then source[slash.value + 1..]
        else if backslash.Some? then source[backslash.value + 1..]
        else source;
      if name == "" || name == "." || name == ".." then None else Some(name)
  }

  /** The last component of a path: no separator in it, and one just before it unless it is the whole. */
  ghost predicate IsLastComponent(source: string, name: string) {
    && |name| <= |source| && source[|source| - |name|..] == name
    && (forall k :: 0 <= k < |name| ==> !IsPathSeparator(name[k]))
    && (|name| < |source| ==> IsPathSeparator(source[|source| - |name| - 1]))
  }

  lemma NoSeparatorIn(source: string, name: string)
    requires IsLastComponent(source, name)
    ensures forall k :: |source| - |name| <= k < |source| ==> !IsPathSeparator(source[k])
  {
    forall k | |source| - |name| <= k < |source|
      ensures !IsPathSeparator(source[k])
    {
      assert source[|source| - |name|..][k - (|source| - |name|)] == source[k];
    }
  }

  lemma LastComponentIsUnique(source: string, a: string, b: string)
    requires IsLastComponent(source, a) && IsLastComponent(source, b)
    ensures a == b
  {
    NoSeparatorIn(source, a);
    NoSeparatorIn(source, b);
  }

  lemma LastComponentExists(source: string) returns (name: string)
    requires source != ""
    ensures IsLastComponent(source, name)
    ensures DownloadName(source) == if name == "" || name == "." || name == ".." then None else Some(name)
  {
    hide LastOf;
    var slash, backslash := LastOf(source, '/'), LastOf(source, '\\');
    var first := if slash.Some? then slash.value + 1 else 0;
    first := if backslash.Some? && backslash.value + 1 > first then backslash.value + 1 else first;
    name := source[first..];
  }

  /** The download gets exactly the last component of the peer's name for the file, and a fallback name exactly when that
      component is empty or a dot name: no name a peer gives leads out of the destination folder. */
  lemma NameStaysInFolder(source: string, name: string)
    ensures DownloadName(source) == Some(name) <==> IsLastComponent(source, name) && name !in {"", ".", ".."}
    ensures DownloadName(source) == None <==> exists last :: IsLastComponent(source, last) && last in {"", ".", ".."}
  {
    if source != "" {
      hide DownloadName;
      var last := LastComponentExists(source);
      forall other | IsLastComponent(source, other)
        ensures other == last
      {
        LastComponentIsUnique(source, last, other);
      }
    } else {
      assert IsLastComponent("", "");
      assert IsLastComponent(source, name) ==> name == "";
    }
  }

  function FallbackName(size: nat, hash: nat): string {
    "download_" + Print(size) + "_" + Print(hash)
  }

  // The final and the partial path of a download.
  datatype DownloadPaths = DownloadPaths(final: string, partial: string)

  /** build_download_paths; None when a path does not fit its buffer. */
  function BuildPaths(folder: string, source: string, size: nat, hash: nat): Option<DownloadPaths> {
    var final := folder + "/" + ChosenName(source, size, hash);
    var partial := final + ".part";
    if |final| >= PATH_MAX || |partial| >= PATH_MAX then None else Some(DownloadPaths(final, partial))
  }

  /** The printed size ends at the underscore, so a fallback name tells its file. */
  lemma FallbackNamesDiffer(size: nat, hash: nat, otherSize: nat, otherHash: nat)
    requires FallbackName(size, hash) == FallbackName(otherSize, otherHash)
    ensures size == otherSize && hash == otherHash
  {
    var a, b := Print(size), Print(otherSize);
    var x, y := Print(hash), Print(otherHash);
    DecimalOfPrint(size);
    DecimalOfPrint(otherSize);
    DecimalOfPrint(hash);
    DecimalOfPrint(otherHash);
    hide Print, Decimal;
    var s, t := FallbackName(size, hash), FallbackName(otherSize, otherHash);
    assert s[9..] == a + "_" + x && t[9..] == b + "_" + y;
    SplitAtUnderscore(a, x, b, y);
  }

  lemma SplitAtUnderscore(a: string, x: string, b: string, y: string)
    requires (forall k :: 0 <= k < |a| ==> IsDigit(a[k])) && (forall k :: 0 <= k < |b| ==> IsDigit(b[k]))
    requires a + "_" + x == b + "_" + y
    ensures a == b && x == y
  {
    var s := a + "_" + x;
    assert s == b + "_" + y;
    DigitsEndAt(s, 0, |a|);
    DigitsEndAt(s, 0, |b|);
    assert s[..|a|] == a && s[..|b|] == b && s[|a| + 1..] == x && s[|b| + 1..] == y;
  }

  /** The name a download gets in its folder. */
  function ChosenName(source: string, size: nat, hash: nat): string {
    var name := DownloadName(source);
    if name.Some? then name.value else FallbackName(size, hash)
  }

  lemma ChosenHasNoSeparator(source: string, size: nat, hash: nat)
    ensures forall k :: 0 <= k < |ChosenName(source, size, hash)| ==> !IsPathSeparator(ChosenName(source, size, hash)[k])
  {
    hide Print, DownloadName;
    var name := DownloadName(source);
    if name.Some? {
      NameStaysInFolder(source, name.value);
    }
  }

  /** The partial path is never the final one of the same download, and both lie directly in the folder. */
  lemma PathsInFolder(folder: string, source: string, size: nat, hash: nat)
    requires BuildPaths(folder, source, size, hash).Some?
    ensures var p := BuildPaths(folder, source, size, hash).value;
      && p.partial != p.final && folder + "/" <= p.final
      && (forall k :: |folder| + 1 <= k < |p.final| ==> !IsPathSeparator(p.final[k]))
  {
    hide ChosenName, IsPathSeparator;
    ChosenHasNoSeparator(source, size, hash);
    var chosen, final := ChosenName(source, size, hash), BuildPaths(folder, source, size, hash).value.final;
    assert forall k :: |folder| + 1 <= k < |final| ==> final[k] == chosen[k - |folder| - 1];
  }

  /** Where a download goes: into the folder, under the last component of the peer's name for the file if that is a name, and
      otherwise under one made of its size and hash; the partial file has `.part` after that. */
  lemma {:induction false} PathsAre(folder: string, source: string, size: nat, hash: nat, last: string)
    requires if source == "" then last == "" else IsLastComponent(source, last)
    ensures var final := folder + "/" + (if last in {"", ".", ".."} then "download_" + Print(size) + "_" + Print(hash) else last);
      BuildPaths(folder, source, size, hash)
        == if |final| + 5 >= 4096 then None else Some(DownloadPaths(final, final + ".part"))
  {
    hide Print, DownloadName, IsLastComponent;
    NameStaysInFolder(source, last);
    if source == "" {
      NoName();
    }
  }

  lemma NoName()
    ensures DownloadName("") == None
  {
  }
}
