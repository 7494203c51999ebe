/** The machine artifacts of a release directory: `list_release_machine_artifacts`. */
module ReleaseTree {
  import opened Wrappers
  import opened Enumeration
  import opened Ordering
  import opened Sorting
  import opened PosixPath

  /** A directory entry; `Link` is a symbolic link or reparse point, `Special` anything that
      is neither directory nor regular file. */
  datatype Entry = File | Directory(entries: seq<Named>) | Link | Special

  datatype Named = Named(name: string, entry: Entry)

  datatype TreeError = LinkedEntry(path: string) | NonRegular(path: string)

  const MACHINE_ARTIFACT_EXTENSIONS := {
    ".csv", ".json", ".jsonld", ".nq", ".nt", ".rdf", ".sch", ".ttl", ".xml", ".xsd" }

  const LOCK_NAME := "artifact-lock.json"

  predicate IsMachineArtifact(relative: string) {
    relative != LOCK_NAME && Lower(Suffix(relative)) in MACHINE_ARTIFACT_EXTENSIONS
  }

  // ----- trees and paths

  predicate ProperName(name: string) {
    name != "" && '/' !in name
  }

  /** Entry names within one directory are distinct and free of slashes. */
  ghost predicate ProperTree(entries: seq<Named>) {
    && (forall e | e in entries :: ProperName(e.name))
    && (forall i, j | 0 <= i < j < |entries| :: entries[i].name != entries[j].name)
    && (forall e | e in entries && e.entry.Directory? :: ProperTree(e.entry.entries))
  }

  /** Directories and regular files all the way down. */
  ghost predicate Regular(entries: seq<Named>) {
    forall e | e in entries :: e.entry.File? || (e.entry.Directory? && Regular(e.entry.entries))
  }

  /** Following the names from the directory leads to a regular file. */
  ghost predicate FileAt(entries: seq<Named>, names: seq<string>)
    decreases |names|
  {
    names != []
    && exists e :: e in entries && e.name == names[0]
         && (if |names| == 1 then e.entry.File? else e.entry.Directory? && FileAt(e.entry.entries, names[1..]))
  }

  function Join(names: seq<string>): string {
    if names == [] then ""
    else if |names| == 1 then names[0]
    else names[0] + "/" + Join(names[1..])
  }

  /** `f"{parent}/{name}" if parent else name`. */
  function Under(parent: string, name: string): string {
    if parent != "" then parent + "/" + name else name
  }

  ghost predicate ProperNames(names: seq<string>) {
    forall n | n in names :: ProperName(n)
  }

  lemma {:induction false} JoinUnder(parents: seq<string>, name: string)
    requires ProperNames(parents)
    ensures Under(Join(parents), name) == Join(parents + [name])
    ensures parents != [] ==> Join(parents) != ""
    decreases |parents|
  {
    if parents == [] {
      assert parents + [name] == [name];
    } else if |parents| == 1 {
      assert parents[0] in parents;
      assert parents + [name] == [parents[0], name];
    } else {
      assert parents[0] in parents;
      JoinUnder(parents[1..], name);
      assert parents + [name] == [parents[0]] + (parents[1..] + [name]);
      ConcatLeft(parents[0] + "/", Join(parents[1..]), "/" + name);
    }
  }

  lemma ConcatLeft(a: string, b: string, c: string)
    ensures a + (b + c) == a + b + c
  {
  }

  lemma {:induction false} SplitOfName(name: string)
    requires '/' !in name
    ensures Split(name) == [name]
    decreases |name|
  {
    if name != "" {
      assert forall c | c in name[1..] :: c in name;
      SplitOfName(name[1..]);
      assert name == [name[0]] + name[1..];
    }
  }

  lemma {:induction false} SplitAfterName(name: string, rest: string)
    requires '/' !in name
    ensures Split(name + "/" + rest) == [name] + Split(rest)
    decreases |name|
  {
    var s := name + "/" + rest;
    if name == "" {
      assert s[1..] == rest;
    } else {
      assert forall c | c in name[1..] :: c in name;
      SplitAfterName(name[1..], rest);
      assert s[1..] == name[1..] + "/" + rest;
      assert name == [name[0]] + name[1..];
    }
  }

  /** Splitting a joined path gives its names back: distinct files never share a path. */
  lemma {:induction false} SplitInvertsJoin(names: seq<string>)
    requires names != [] && ProperNames(names)
    ensures Split(Join(names)) == names
    decreases |names|
  {
    assert names[0] in names;
    if |names| == 1 {
      SplitOfName(names[0]);
    } else {
      SplitInvertsJoin(names[1..]);
      SplitAfterName(names[0], Join(names[1..]));
    }
  }

  lemma JoinInjective(a: seq<string>, b: seq<string>)
    requires a != [] && b != [] && ProperNames(a) && ProperNames(b) && Join(a) == Join(b)
    ensures a == b
  {
    SplitInvertsJoin(a);
    SplitInvertsJoin(b);
  }

  lemma {:induction false} FileNamesProper(entries: seq<Named>, names: seq<string>)
    requires ProperTree(entries) && FileAt(entries, names)
    ensures ProperNames(names)
    decreases |names|
  {
    var e :| e in entries && e.name == names[0]
      && (if |names| == 1 then e.entry.File? else e.entry.Directory? && FileAt(e.entry.entries, names[1..]));
    if |names| > 1 {
      FileNamesProper(e.entry.entries, names[1..]);
    }
    assert names == [names[0]] + names[1..];
  }

  // ----- the walk

  /** `s` is the path of a machine artifact below the directory that `parents` leads to. */
  ghost predicate Artifact(entries: seq<Named>, parents: seq<string>, s: string) {
    exists names :: FileAt(entries, names) && s == Join(parents + names) && IsMachineArtifact(s)
  }

  /** The part of a listing from which `found` was discovered. */
  ghost predicate Discovered(entries: seq<Named>, parents: seq<string>, found: seq<string>) {
    NoDuplicates(found) && forall s :: s in found <==> Artifact(entries, parents, s)
  }

  method Walk(entries: seq<Named>, relativeParent: string, ghost parents: seq<string>)
    returns (r: Result<seq<string>, TreeError>)
    requires ProperTree(entries) && ProperNames(parents) && relativeParent == Join(parents)
    ensures r.Ok? <==> Regular(entries)
    ensures r.Ok? ==> Discovered(entries, parents, r.value)
    decreases entries
  {
    var discovered: seq<string> := [];
    NothingIn(parents);
    for i := 0 to |entries|
      invariant Regular(entries[..i])
      invariant Discovered(entries[..i], parents, discovered)
    {
      var e := entries[i];
      assert e in entries;
      var relative := Under(relativeParent, e.name);
      JoinUnder(parents, e.name);
      assert entries[..i + 1] == entries[..i] + [e];
      match e.entry
      case Link => return Err(LinkedEntry(relative));
      case Special => return Err(NonRegular(relative));
      case Directory(children) =>
        var inner := Walk(children, relative, parents + [e.name]);
        if inner.Err? {
          return inner;
        }
        AddDirectory(entries[..i], e, parents, discovered, inner.value);
        discovered := discovered + inner.value;
      case File =>
        AddFile(entries[..i], e, parents, discovered);
        if IsMachineArtifact(relative) {
          discovered := discovered + [relative];
        }
    }
    assert entries[..|entries|] == entries;
    return Ok(discovered);
  }

  lemma NothingIn(parents: seq<string>)
    ensures Discovered([], parents, [])
  {
  }

  lemma FileAtSplit(entries: seq<Named>, e: Named, names: seq<string>)
    ensures FileAt(entries + [e], names) <==> FileAt(entries, names) || FileAt([e], names)
  {
  }

  lemma FileAtOne(e: Named, names: seq<string>)
    ensures FileAt([e], names)
       <==> names != [] && names[0] == e.name
            && (if |names| == 1 then e.entry.File? else e.entry.Directory? && FileAt(e.entry.entries, names[1..]))
  {
  }

  /** Files under different entries have different paths. */
  lemma OtherEntryOtherPath(entries: seq<Named>, e: Named, parents: seq<string>, s: string)
    requires ProperTree(entries + [e]) && ProperNames(parents)
    requires Artifact(entries, parents, s)
    ensures !Artifact([e], parents, s)
  {
    assert forall f | f in entries :: f.name != e.name by {
      forall i | 0 <= i < |entries|
        ensures entries[i].name != e.name
      {
        assert (entries + [e])[i] == entries[i] && (entries + [e])[|entries|] == e;
      }
    }
    if Artifact([e], parents, s) {
      var names :| FileAt(entries, names) && s == Join(parents + names);
      var other :| FileAt([e], other) && s == Join(parents + other);
      FileAtSplit(entries, e, names);
      FileAtSplit(entries, e, other);
      FileNamesProper(entries + [e], names);
      FileNamesProper(entries + [e], other);
      assert ProperNames(parents + names) && ProperNames(parents + other);
      JoinInjective(parents + names, parents + other);
      assert names == (parents + names)[|parents|..] == (parents + other)[|parents|..] == other;
      FileAtOne(e, other);
      assert false;
    }
  }

  lemma AddEntry(entries: seq<Named>, e: Named, parents: seq<string>, found: seq<string>, more: seq<string>)
    requires ProperTree(entries + [e]) && ProperNames(parents)
    requires Discovered(entries, parents, found) && Discovered([e], parents, more)
    ensures Discovered(entries + [e], parents, found + more)
  {
    forall s
      ensures Artifact(entries + [e], parents, s) <==> Artifact(entries, parents, s) || Artifact([e], parents, s)
    {
      forall names
        ensures FileAt(entries + [e], names) <==> FileAt(entries, names) || FileAt([e], names)
      {
        FileAtSplit(entries, e, names);
      }
    }
    forall i, j | 0 <= i < |found| && 0 <= j < |more|
      ensures found[i] != more[j]
    {
      assert found[i] in found && more[j] in more;
      OtherEntryOtherPath(entries, e, parents, found[i]);
    }
  }

  lemma AddFile(entries: seq<Named>, e: Named, parents: seq<string>, found: seq<string>)
    requires ProperTree(entries + [e]) && ProperNames(parents) && e.entry.File?
    requires Discovered(entries, parents, found)
    ensures var path := Join(parents + [e.name]);
            Discovered(entries + [e], parents, found + if IsMachineArtifact(path) then [path] else [])
  {
    var path := Join(parents + [e.name]);
    forall s
      ensures Artifact([e], parents, s) <==> s == path && IsMachineArtifact(path)
    {
      FileAtOne(e, [e.name]);
      forall names | FileAt([e], names)
        ensures names == [e.name]
      {
        FileAtOne(e, names);
      }
    }
    AddEntry(entries, e, parents, found, if IsMachineArtifact(path) then [path] else []);
  }

  lemma AddDirectory(entries: seq<Named>, e: Named, parents: seq<string>, found: seq<string>, inner: seq<string>)
    requires ProperTree(entries + [e]) && ProperNames(parents) && e.entry.Directory?
    requires Discovered(entries, parents, found) && Discovered(e.entry.entries, parents + [e.name], inner)
    ensures Discovered(entries + [e], parents, found + inner)
  {
    forall s
      ensures Artifact([e], parents, s) <==> Artifact(e.entry.entries, parents + [e.name], s)
    {
      ArtifactBelow(e, parents, s);
    }
    AddEntry(entries, e, parents, found, inner);
  }

  lemma ArtifactBelow(e: Named, parents: seq<string>, s: string)
    requires e.entry.Directory?
    ensures Artifact([e], parents, s) <==> Artifact(e.entry.entries, parents + [e.name], s)
  {
    if Artifact([e], parents, s) {
      var names :| FileAt([e], names) && s == Join(parents + names) && IsMachineArtifact(s);
      PathBelow(e, parents, names);
    }
    if Artifact(e.entry.entries, parents + [e.name], s) {
      var rest :| FileAt(e.entry.entries, rest) && s == Join(parents + [e.name] + rest) && IsMachineArtifact(s);
      PathAbove(e, parents, rest);
    }
  }

  lemma PathBelow(e: Named, parents: seq<string>, names: seq<string>)
    requires e.entry.Directory? && FileAt([e], names)
    ensures FileAt(e.entry.entries, names[1..]) && parents + names == parents + [e.name] + names[1..]
  {
    FileAtOne(e, names);
    assert names == [e.name] + names[1..];
    Regroup(parents, [e.name], names[1..]);
  }

  lemma Regroup(a: seq<string>, b: seq<string>, c: seq<string>)
    ensures a + (b + c) == a + b + c
  {
  }

  lemma PathAbove(e: Named, parents: seq<string>, rest: seq<string>)
    requires e.entry.Directory? && FileAt(e.entry.entries, rest)
    ensures FileAt([e], [e.name] + rest) && parents + ([e.name] + rest) == parents + [e.name] + rest
  {
    assert ([e.name] + rest)[1..] == rest;
    FileAtOne(e, [e.name] + rest);
    Regroup(parents, [e.name], rest);
  }

  /** `s` is the path, from the release root, of a machine artifact. */
  ghost predicate IsListed(root: seq<Named>, s: string) {
    exists names :: FileAt(root, names) && s == Join(names) && IsMachineArtifact(s)
  }

  /** The sorted paths of exactly the machine artifacts, each once. */
  method ListArtifacts(root: seq<Named>) returns (r: Result<seq<string>, TreeError>)
    requires ProperTree(root)
    ensures r.Ok? <==> Regular(root)
    ensures r.Ok? ==> SortedByKey((k: string) => k, r.value)
    ensures r.Ok? ==> forall s :: s in r.value <==> IsListed(root, s)
  {
    var walked := Walk(root, "", []);
    if walked.Err? {
      return walked;
    }
    SortStrict((k: string) => k, walked.value);
    r := Ok(Sort(ByKey((k: string) => k), walked.value));
    forall s
      ensures s in r.value <==> IsListed(root, s)
    {
      assert s in r.value <==> s in Elements(r.value);
      assert s in walked.value <==> s in Elements(walked.value);
      ListedIsArtifact(root, s);
    }
  }

  lemma ListedIsArtifact(root: seq<Named>, s: string)
    ensures Artifact(root, [], s) <==> IsListed(root, s)
  {
    assert forall names: seq<string> :: [] + names == names;
  }
}
