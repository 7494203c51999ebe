/** Strings as Python's `PurePosixPath` and string methods read them. */
module PosixPath {
  /** `s.split("/")`. */
  function Split(s: string): (parts: seq<string>)
    ensures |parts| > 0
    decreases |s|
  {
    if s == "" then [""]
    else
      var rest := Split(s[1..]);
      if s[0] == '/' then [""] + rest else [[s[0]] + rest[0]] + rest[1..]
  }

  /** The components of a path: empty ones and single dots do not count. */
  function Components(parts: seq<string>): seq<string> {
    if parts == [] then []
    else if parts[0] == "" || parts[0] == "." then Components(parts[1..])
    else [parts[0]] + Components(parts[1..])
  }

  function Parts(path: string): seq<string> {
    Components(Split(path))
  }

  /** The last component, or nothing. */
  function Name(path: string): string {
    var parts := Parts(path);
    if parts == [] then "" else parts[|parts| - 1]
  }

  predicate EndsWith(s: string, suffix: string) {
    |suffix| <= |s| && s[|s| - |suffix|..] == suffix
  }

  predicate OccursAt(s: string, part: string, i: nat) {
    i + |part| <= |s| && s[i..i + |part|] == part
  }

  predicate Contains(s: string, part: string) {
    exists i: nat :: i <= |s| && OccursAt(s, part, i)
  }

  /** The position of the last dot, or -1. */
  function LastDot(name: string): (i: int)
    ensures -1 <= i < |name|
    ensures i >= 0 ==> name[i] == '.'
    ensures forall j :: i < j < |name| ==> name[j] != '.'
    decreases |name|
  {
    if name == "" then -1
    else if name[|name| - 1] == '.' then |name| - 1
    else LastDot(name[..|name| - 1])
  }

  /** `PurePosixPath(path).suffix`: from the last dot of the name, unless that dot is first or last. */
  function Suffix(path: string): string {
    var name := Name(path);
    var i := LastDot(name);
    if 0 < i < |name| - 1 then name[i..] else ""
  }

  function LowerChar(c: char): char {
    if 'A' <= c <= 'Z' then (c as int + 32) as char else c
  }

  /** Lower case for ASCII letters, which is all that the compared extensions hold. */
  function Lower(s: string): string {
    seq(|s|, i requires 0 <= i < |s| => LowerChar(s[i]))
  }

  function Replace(s: string, from: char, to: char): string {
    seq(|s|, i requires 0 <= i < |s| => if s[i] == from then to else s[i])
  }
}
