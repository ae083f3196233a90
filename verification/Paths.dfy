/** File names as `pathlib` takes them apart. */
module Paths {

  /** The position of the last `c`, or -1. */
  function LastIndex(s: string, c: char): (k: int)
    ensures -1 <= k < |s|
    ensures k >= 0 ==> s[k] == c
    ensures forall i :: k < i < |s| ==> s[i] != c
  {
    if s == "" then -1
    else if s[|s| - 1] == c then |s| - 1
    else LastIndex(s[..|s| - 1], c)
  }

  function SlashFrom(s: string, i: nat): (k: nat)
    requires i <= |s|
    ensures i <= k <= |s| && (forall j :: i <= j < k ==> s[j] != '/') && (k < |s| ==> s[k] == '/')
    decreases |s| - i
  {
    if i == |s| || s[i] == '/' then i else SlashFrom(s, i + 1)
  }

  /** Where the first slash is, or the length. */
  function FirstSlash(s: string): (k: nat)
    ensures k <= |s| && (forall i :: 0 <= i < k ==> s[i] != '/') && (k < |s| ==> s[k] == '/')
  {
    SlashFrom(s, 0)
  }

  /** `PurePath.name` of a slash-separated path. */
  function Name(path: string): string {
    path[LastIndex(path, '/') + 1..]
  }

  /** `PurePath.suffix`: from the last dot of the name, unless that leads or ends it. */
  function Suffix(name: string): string {
    var k := LastIndex(name, '.');
    if 0 < k < |name| - 1 then name[k..] else ""
  }

  /** `s.endswith(t)`. */
  predicate EndsWith(s: string, t: string) {
    |t| <= |s| && s[|s| - |t|..] == t
  }

  /** For a name that does not start with a dot, having the suffix `.py` and ending in `.py` are the same. */
  lemma SuffixIsEnding(name: string)
    requires name != "" && name[0] != '.'
    ensures Suffix(name) == ".py" <==> EndsWith(name, ".py")
  {
    var k, n := LastIndex(name, '.'), |name|;
    if EndsWith(name, ".py") {
      var tail := name[n - 3..];
      assert tail[0] == name[n - 3] && tail[1] == name[n - 2] && tail[2] == name[n - 1];
      assert k == n - 3;
    }
    if 0 < k < n - 1 && name[k..] == ".py" {
      assert |name[k..]| == n - k;
    }
  }
}
