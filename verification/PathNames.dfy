/** The functions on paths and file names by what they mean: segments, names, suffixes, letters. */
module PathNames {
  import opened PosixPath
  import opened ReleaseTree

  // ----- segments

  /** No segment holds a separator. */
  ghost predicate AreSegments(parts: seq<string>) {
    |parts| > 0 && forall p | p in parts :: '/' !in p
  }

  lemma JoinAfterEmpty(parts: seq<string>)
    requires parts != []
    ensures Join([""] + parts) == "/" + Join(parts)
  {
    assert ([""] + parts)[1..] == parts;
  }

  lemma JoinLonger(c: char, parts: seq<string>)
    requires parts != []
    ensures Join([[c] + parts[0]] + parts[1..]) == [c] + Join(parts)
  {
    var longer := [[c] + parts[0]] + parts[1..];
    assert longer[1..] == parts[1..];
    if |parts| > 1 {
      assert [c] + parts[0] + "/" + Join(parts[1..]) == [c] + (parts[0] + "/" + Join(parts[1..]));
    }
  }

  lemma {:induction false} JoinOfSplit(s: string)
    ensures Join(Split(s)) == s
    decreases |s|
  {
    if s != "" {
      JoinOfSplit(s[1..]);
      assert s == [s[0]] + s[1..];
      JoinAfterEmpty(Split(s[1..]));
      JoinLonger(s[0], Split(s[1..]));
    }
  }

  lemma {:induction false} SegmentsOfSplit(s: string)
    ensures AreSegments(Split(s))
    decreases |s|
  {
    if s != "" {
      SegmentsOfSplit(s[1..]);
      var rest := Split(s[1..]);
      forall p | p in Split(s)
        ensures '/' !in p
      {
        assert rest[0] in rest && forall q | q in rest[1..] :: q in rest;
      }
    }
  }

  lemma {:induction false} SplitOfJoin(parts: seq<string>)
    requires AreSegments(parts)
    ensures Split(Join(parts)) == parts
    decreases |parts|
  {
    if |parts| == 1 {
      SplitOfName(parts[0]);
    } else {
      assert parts[0] in parts && forall p | p in parts[1..] :: p in parts;
      SplitOfJoin(parts[1..]);
      SplitAfterName(parts[0], Join(parts[1..]));
      assert parts == [parts[0]] + parts[1..];
    }
  }

  /** Splitting cuts at every separator and nowhere else. */
  lemma SplitExactly(s: string, parts: seq<string>)
    ensures Split(s) == parts <==> AreSegments(parts) && Join(parts) == s
  {
    JoinOfSplit(s);
    SegmentsOfSplit(s);
    if AreSegments(parts) && Join(parts) == s {
      SplitOfJoin(parts);
    }
  }

  /** Empty segments and single dots are dropped, all others stay, in order. */
  lemma {:induction false} ComponentsAppend(a: seq<string>, b: seq<string>)
    ensures Components(a + b) == Components(a) + Components(b)
    decreases |a|
  {
    if a == [] {
      assert a + b == b;
    } else {
      ComponentsAppend(a[1..], b);
      assert (a + b)[0] == a[0] && (a + b)[1..] == a[1..] + b;
    }
  }

  lemma OneComponent(p: string)
    ensures Components([p]) == if p == "" || p == "." then [] else [p]
  {
    assert [p][1..] == [];
  }

  /** A file's name: a segment that is neither empty nor a dot. */
  predicate IsFileName(name: string) {
    name != "" && name != "." && '/' !in name
  }

  lemma {:induction false} SplitAppend(dir: string, name: string)
    requires '/' !in name
    ensures Split(dir + "/" + name) == Split(dir) + [name]
    decreases |dir|
  {
    var s := dir + "/" + name;
    if dir == "" {
      SplitOfName(name);
      assert s[1..] == name;
    } else {
      SplitAppend(dir[1..], name);
      assert s[1..] == dir[1..] + "/" + name;
      var rest := Split(dir[1..]);
      assert (rest + [name])[0] == rest[0] && (rest + [name])[1..] == rest[1..] + [name];
    }
  }

  /** The name is what follows the last separator. */
  lemma NameIsLast(dir: string, name: string)
    requires IsFileName(name)
    ensures Name(name) == name && Name(dir + "/" + name) == name
  {
    SplitOfName(name);
    SplitAppend(dir, name);
    OneComponent(name);
    ComponentsAppend(Split(dir), [name]);
  }

  // ----- parts of a text

  ghost predicate StartsIn(s: string, start: string) {
    exists rest :: s == start + rest
  }

  ghost predicate EndsIn(s: string, end: string) {
    exists rest :: s == rest + end
  }

  ghost predicate Within(s: string, part: string) {
    exists before, after :: s == before + part + after
  }

  lemma EndsExactly(s: string, end: string)
    ensures EndsWith(s, end) <==> EndsIn(s, end)
  {
    if EndsWith(s, end) {
      assert s == s[..|s| - |end|] + end;
    }
    if rest :| s == rest + end {
      assert s[|s| - |end|..] == end;
    }
  }

  lemma ContainsExactly(s: string, part: string)
    ensures Contains(s, part) <==> Within(s, part)
  {
    if i: nat :| i <= |s| && OccursAt(s, part, i) {
      assert s == s[..i] + part + s[i + |part|..];
    }
    if before, after :| s == before + part + after {
      assert OccursAt(s, part, |before|);
    }
  }

  lemma StartsExactly(s: string, start: string)
    ensures start <= s <==> StartsIn(s, start)
  {
    if start <= s {
      assert s == start + s[|start|..];
    }
  }

  // ----- suffixes

  /** The name is a stem, a dot and an extension without a dot, neither empty. */
  ghost predicate IsStemAndExtension(name: string, stem: string, extension: string) {
    name == stem + "." + extension && stem != "" && extension != "" && '.' !in extension
  }

  /** The suffix is the last dot and the extension behind it, where there are both a stem and an
      extension, and empty otherwise. */
  lemma SuffixExactly(path: string)
    ensures forall stem, extension | IsStemAndExtension(Name(path), stem, extension) :: Suffix(path) == "." + extension
    ensures (forall stem, extension :: !IsStemAndExtension(Name(path), stem, extension)) ==> Suffix(path) == ""
  {
    var name := Name(path);
    var i := LastDot(name);
    forall stem, extension | IsStemAndExtension(name, stem, extension)
      ensures Suffix(path) == "." + extension
    {
      assert name[|stem|] == '.';
      assert forall j | |stem| < j < |name| :: name[j] == extension[j - |stem| - 1];
      assert i == |stem|;
      assert name[i..] == "." + extension;
    }
    if 0 < i < |name| - 1 {
      assert name == name[..i] + "." + name[i + 1..];
      assert IsStemAndExtension(name, name[..i], name[i + 1..]);
    }
  }

  // ----- letters

  const SMALL := "abcdefghijklmnopqrstuvwxyz"
  const CAPITAL := "ABCDEFGHIJKLMNOPQRSTUVWXYZ"

  /** Capital letters become the small ones, all other characters stay. */
  lemma LowerByAlphabet(s: string, i: nat)
    requires i < |s|
    ensures |Lower(s)| == |s|
    ensures forall k | 0 <= k < 26 && s[i] == CAPITAL[k] :: Lower(s)[i] == SMALL[k]
    ensures s[i] !in CAPITAL ==> Lower(s)[i] == s[i]
  {
    assert |CAPITAL| == 26 && forall k | 0 <= k < 26 :: CAPITAL[k] as int == 65 + k && SMALL[k] as int == 97 + k;
    if 'A' <= s[i] <= 'Z' {
      assert CAPITAL[s[i] as int - 65] == s[i];
    }
  }

  // ----- machine artifacts

  /** The extensions in small letters. */
  predicate IsMachineExtension(extension: string) {
    extension in { "csv", "json", "jsonld", "nq", "nt", "rdf", "sch", "ttl", "xml", "xsd" }
  }

  lemma ExtensionTexts()
    ensures ".csv" == "." + "csv" && ".json" == "." + "json" && ".jsonld" == "." + "jsonld" && ".nq" == "." + "nq"
    ensures ".nt" == "." + "nt" && ".rdf" == "." + "rdf" && ".sch" == "." + "sch" && ".ttl" == "." + "ttl"
    ensures ".xml" == "." + "xml" && ".xsd" == "." + "xsd"
  {
  }

  lemma MachineExtensions(extension: string)
    ensures Lower("." + extension) in MACHINE_ARTIFACT_EXTENSIONS <==> IsMachineExtension(Lower(extension))
  {
    var e := Lower(extension);
    assert Lower("." + extension) == "." + e;
    assert ("." + e)[1..] == e;
    ExtensionTexts();
  }

  /** A machine artifact is any file but the lock whose name has one of ten extensions, in any case. */
  lemma MachineArtifactExactly(relative: string)
    ensures IsMachineArtifact(relative)
       <==> relative != "artifact-lock.json"
            && exists stem, extension :: IsStemAndExtension(Name(relative), stem, extension)
                 && IsMachineExtension(Lower(extension))
  {
    SuffixExactly(relative);
    forall stem, extension | IsStemAndExtension(Name(relative), stem, extension)
      ensures Lower(Suffix(relative)) in MACHINE_ARTIFACT_EXTENSIONS <==> IsMachineExtension(Lower(extension))
    {
      MachineExtensions(extension);
    }
  }
}
