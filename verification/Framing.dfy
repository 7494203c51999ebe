/** The byte stream hashed for an installed distribution:
    `_installed_distribution_content_digests`. */
module Framing {
  import opened Wrappers
  import opened Ordering
  import opened Sorting
  import opened PosixPath

  type Byte = b: int | 0 <= b < 256 witness 0

  type Bytes = seq<Byte>

  const MAX_DISTRIBUTION_FILE_BYTES := 16 * 1024 * 1024

  const DIGEST_BYTES := 32

  /** A file that the distribution lists, as found on disk. */
  datatype Installed = Installed(packagePath: string, regular: bool, payload: Bytes)

  datatype Record = Record(path: string, digest: Bytes)

  function Relative(f: Installed): string {
    Replace(f.packagePath, '\\', '/')
  }

  /** Files that the digest leaves out. */
  predicate Skipped(relative: string) {
    || ".." in Parts(relative) || "/" <= relative
    || EndsWith(relative, ".dist-info/RECORD") || Contains(relative, "/__pycache__/")
    || EndsWith(relative, ".pyc")
    || (Contains(relative, ".dist-info/") && Name(relative) in {"INSTALLER", "REQUESTED", "direct_url.json"})
  }

  predicate Acceptable(f: Installed) {
    f.regular && |f.payload| <= MAX_DISTRIBUTION_FILE_BYTES
  }

  /** The results of `f` on the members of `xs`, in order. */
  function FlatMap<A, B>(f: A -> seq<B>, xs: seq<A>): seq<B>
    decreases |xs|
  {
    if xs == [] then [] else FlatMap(f, xs[..|xs| - 1]) + f(xs[|xs| - 1])
  }

  function RecordsOf(sha256: Bytes -> Bytes): Installed -> seq<Record> {
    f => if Skipped(Relative(f)) then [] else [Record(Relative(f), sha256(f.payload))]
  }

  /** The records of the files that count, in list order. */
  function Manifest(files: seq<Installed>, sha256: Bytes -> Bytes): seq<Record> {
    FlatMap(RecordsOf(sha256), files)
  }

  // ----- the order of the manifest

  /** Python's order on (path, digest) tuples. */
  predicate RecordLe(a: Record, b: Record) {
    StringLess(a.path, b.path) || (a.path == b.path && (a.digest == b.digest || LexLess(a.digest, b.digest)))
  }

  lemma {:induction false} RecordOrder()
    ensures TotalOrder(RecordLe)
  {
    forall a, b
      ensures RecordLe(a, b) || RecordLe(b, a)
      ensures RecordLe(a, b) && RecordLe(b, a) ==> a == b
    {
      StringOrder(a.path, b.path);
      LexTotal(a.digest, b.digest);
      if LexLess(a.digest, b.digest) && LexLess(b.digest, a.digest) {
        LexTransitive(a.digest, b.digest, a.digest);
      }
      LexIrreflexive(a.digest);
    }
    forall a, b, c | RecordLe(a, b) && RecordLe(b, c)
      ensures RecordLe(a, c)
    {
      RecordTransitive(a, b, c);
    }
  }

  lemma RecordTransitive(a: Record, b: Record, c: Record)
    requires RecordLe(a, b) && RecordLe(b, c)
    ensures RecordLe(a, c)
  {
    if StringLess(a.path, b.path) && StringLess(b.path, c.path) {
      StringTransitive(a.path, b.path, c.path);
    }
    if LexLess(a.digest, b.digest) && LexLess(b.digest, c.digest) {
      LexTransitive(a.digest, b.digest, c.digest);
    }
  }

  // ----- framing

  function Frame(r: Record, utf8: string -> Bytes): Bytes {
    utf8(r.path) + [0] + r.digest + [0]
  }

  function FrameAll(records: seq<Record>, utf8: string -> Bytes): Bytes
    decreases |records|
  {
    if records == [] then [] else Frame(records[0], utf8) + FrameAll(records[1..], utf8)
  }

  /** An encoding of strings that is injective and writes a zero byte for NUL only, as
      UTF-8 does. */
  ghost predicate NulPreserving(utf8: string -> Bytes) {
    && (forall a, b | utf8(a) == utf8(b) :: a == b)
    && (forall s | '\0' !in s :: 0 !in utf8(s))
  }

  ghost predicate Framable(r: Record) {
    '\0' !in r.path && |r.digest| == DIGEST_BYTES
  }

  ghost predicate AllAcceptable(files: seq<Installed>) {
    forall f | f in files && !Skipped(Relative(f)) :: Acceptable(f)
  }

  lemma ManifestStep(files: seq<Installed>, i: nat, sha256: Bytes -> Bytes)
    requires i < |files|
    ensures Manifest(files[..i + 1], sha256) == Manifest(files[..i], sha256) + RecordsOf(sha256)(files[i])
    ensures AllAcceptable(files[..i + 1])
       <==> AllAcceptable(files[..i]) && (Skipped(Relative(files[i])) || Acceptable(files[i]))
  {
    assert files[..i + 1][..i] == files[..i];
    assert files[..i + 1] == files[..i] + [files[i]];
  }

  datatype Collected = Listed(records: seq<Record>) | NotRegular(path: string) | TooLarge(path: string)

  method CollectManifest(files: seq<Installed>, sha256: Bytes -> Bytes) returns (r: Collected)
    ensures r.Listed? <==> AllAcceptable(files)
    ensures r.Listed? ==> r.records == Manifest(files, sha256)
  {
    var manifest: seq<Record> := [];
    for i := 0 to |files|
      invariant manifest == Manifest(files[..i], sha256)
      invariant AllAcceptable(files[..i])
    {
      ManifestStep(files, i, sha256);
      var relative := Relative(files[i]);
      if Skipped(relative) {
        continue;
      }
      assert files[i] in files;
      if !files[i].regular {
        return NotRegular(relative);
      }
      if |files[i].payload| > MAX_DISTRIBUTION_FILE_BYTES {
        return TooLarge(relative);
      }
      manifest := manifest + [Record(relative, sha256(files[i].payload))];
    }
    assert files[..|files|] == files;
    return Listed(manifest);
  }

  /** Path, zero byte, digest, zero byte for each record. */
  method WriteStream(records: seq<Record>, utf8: string -> Bytes) returns (bytes: Bytes)
    ensures bytes == FrameAll(records, utf8)
  {
    bytes := [];
    for i := 0 to |records|
      invariant bytes + FrameAll(records[i..], utf8) == FrameAll(records, utf8)
    {
      FrameStep(records, i, utf8, bytes);
      bytes := bytes + utf8(records[i].path);
      bytes := bytes + [0];
      bytes := bytes + records[i].digest;
      bytes := bytes + [0];
    }
    assert records[|records|..] == [];
    assert bytes + [] == bytes;
  }

  lemma FrameStep(records: seq<Record>, i: nat, utf8: string -> Bytes, bytes: Bytes)
    requires i < |records|
    ensures bytes + FrameAll(records[i..], utf8)
         == bytes + utf8(records[i].path) + [0] + records[i].digest + [0] + FrameAll(records[i + 1..], utf8)
  {
  }

  method DistributionStream(files: seq<Installed>, sha256: Bytes -> Bytes, utf8: string -> Bytes)
    returns (r: Option<Bytes>)
    ensures r.Some? <==> AllAcceptable(files)
    ensures r.Some? ==> r.value == FrameAll(Sort(RecordLe, Manifest(files, sha256)), utf8)
  {
    var manifest := CollectManifest(files, sha256);
    if !manifest.Listed? {
      return None;
    }
    var bytes := WriteStream(Sort(RecordLe, manifest.records), utf8);
    return Some(bytes);
  }

  // ----- the stream is uniquely decodable

  function FirstZero(bytes: Bytes): (i: nat)
    ensures i <= |bytes| && (i < |bytes| ==> bytes[i] == 0) && forall j :: 0 <= j < i ==> bytes[j] != 0
    decreases |bytes|
  {
    if bytes == [] || bytes[0] == 0 then 0 else 1 + FirstZero(bytes[1..])
  }

  /** Read a stream back as (encoded path, digest) pairs. */
  function Unframe(bytes: Bytes): Option<seq<(Bytes, Bytes)>>
    decreases |bytes|
  {
    if bytes == [] then Some([])
    else
      var i := FirstZero(bytes);
      var j := i + 1 + DIGEST_BYTES;
      if j >= |bytes| || bytes[j] != 0 then None
      else
        var rest := Unframe(bytes[j + 1..]);
        if rest.None? then None else Some([(bytes[..i], bytes[i + 1..j])] + rest.value)
  }

  function EncodedPairs(records: seq<Record>, utf8: string -> Bytes): seq<(Bytes, Bytes)> {
    seq(|records|, i requires 0 <= i < |records| => (utf8(records[i].path), records[i].digest))
  }

  /** Decoding inverts framing, zero bytes in digests included. */
  lemma {:induction false} UnframeInverts(records: seq<Record>, utf8: string -> Bytes)
    requires NulPreserving(utf8) && forall r | r in records :: Framable(r)
    ensures Unframe(FrameAll(records, utf8)) == Some(EncodedPairs(records, utf8))
    decreases |records|
  {
    if records == [] {
      assert EncodedPairs(records, utf8) == [];
    } else {
      var r := records[0];
      assert Framable(r);
      assert forall q | q in records[1..] :: q in records;
      UnframeInverts(records[1..], utf8);
      UnframeOne(utf8(r.path), r.digest, FrameAll(records[1..], utf8));
      PairsStep(records, utf8);
    }
  }

  lemma PairsStep(records: seq<Record>, utf8: string -> Bytes)
    requires records != []
    ensures EncodedPairs(records, utf8)
      == [(utf8(records[0].path), records[0].digest)] + EncodedPairs(records[1..], utf8)
    ensures FrameAll(records, utf8)
         == utf8(records[0].path) + [0] + records[0].digest + [0] + FrameAll(records[1..], utf8)
  {
  }

  lemma {:induction false} FirstZeroIs(bytes: Bytes, i: nat)
    requires i < |bytes| && bytes[i] == 0 && forall j :: 0 <= j < i ==> bytes[j] != 0
    ensures FirstZero(bytes) == i
  {
  }

  lemma UnframeAt(bytes: Bytes, i: nat)
    requires i + 1 + DIGEST_BYTES < |bytes| && bytes[i] == 0 && forall j :: 0 <= j < i ==> bytes[j] != 0
    requires bytes[i + 1 + DIGEST_BYTES] == 0 && Unframe(bytes[i + 2 + DIGEST_BYTES..]).Some?
    ensures Unframe(bytes)
         == Some([(bytes[..i], bytes[i + 1..i + 1 + DIGEST_BYTES])] + Unframe(bytes[i + 2 + DIGEST_BYTES..]).value)
  {
    FirstZeroIs(bytes, i);
  }

  lemma UnframeOne(path: Bytes, digest: Bytes, rest: Bytes)
    requires 0 !in path && |digest| == DIGEST_BYTES && Unframe(rest).Some?
    ensures Unframe(path + [0] + digest + [0] + rest) == Some([(path, digest)] + Unframe(rest).value)
  {
    FramedParts(path, digest, rest);
    UnframeAt(path + [0] + digest + [0] + rest, |path|);
  }

  lemma FramedParts(path: Bytes, digest: Bytes, rest: Bytes)
    requires 0 !in path && |digest| == DIGEST_BYTES
    ensures var bytes := path + [0] + digest + [0] + rest;
            var i, j := |path|, |path| + 1 + DIGEST_BYTES;
            && j < |bytes| && bytes[i] == 0 && bytes[j] == 0 && (forall k :: 0 <= k < i ==> bytes[k] != 0)
            && bytes[..i] == path && bytes[i + 1..j] == digest && bytes[j + 1..] == rest
  {
    var bytes := path + [0] + digest + [0] + rest;
    assert forall k | 0 <= k < |path| :: bytes[k] == path[k];
  }

  lemma FrameInjective(a: seq<Record>, b: seq<Record>, utf8: string -> Bytes)
    requires NulPreserving(utf8) && (forall r | r in a :: Framable(r)) && (forall r | r in b :: Framable(r))
    requires FrameAll(a, utf8) == FrameAll(b, utf8)
    ensures a == b
  {
    UnframeInverts(a, utf8);
    UnframeInverts(b, utf8);
    var p, q := EncodedPairs(a, utf8), EncodedPairs(b, utf8);
    assert |a| == |p| == |q| == |b|;
    forall i | 0 <= i < |a|
      ensures a[i] == b[i]
    {
      assert p[i] == q[i];
    }
  }

  /** Two installations give the same stream exactly when the same paths with the same
      digests count in both, in whatever order the files are listed. */
  lemma StreamsAgreeExactly(a: seq<Installed>, b: seq<Installed>, sha256: Bytes -> Bytes, utf8: string -> Bytes)
    requires NulPreserving(utf8)
    requires forall r | r in Manifest(a, sha256) :: Framable(r)
    requires forall r | r in Manifest(b, sha256) :: Framable(r)
    ensures FrameAll(Sort(RecordLe, Manifest(a, sha256)), utf8) == FrameAll(Sort(RecordLe, Manifest(b, sha256)), utf8)
       <==> multiset(Manifest(a, sha256)) == multiset(Manifest(b, sha256))
  {
    var m, n := Manifest(a, sha256), Manifest(b, sha256);
    RecordOrder();
    SortSorts(RecordLe, m);
    SortSorts(RecordLe, n);
    SortIsCanonical(RecordLe, m, n);
    SameRecords(Sort(RecordLe, m), m);
    SameRecords(Sort(RecordLe, n), n);
    if FrameAll(Sort(RecordLe, m), utf8) == FrameAll(Sort(RecordLe, n), utf8) {
      FrameInjective(Sort(RecordLe, m), Sort(RecordLe, n), utf8);
    }
  }

  lemma SameRecords(a: seq<Record>, b: seq<Record>)
    requires multiset(a) == multiset(b)
    ensures forall r | r in a :: r in b
  {
    forall r | r in a
      ensures r in b
    {
      assert r in multiset(a);
    }
  }

  /** Reordering the installed files changes nothing. */
  lemma ManifestOfReordered(a: seq<Installed>, b: seq<Installed>, sha256: Bytes -> Bytes)
    requires multiset(a) == multiset(b)
    ensures Sort(RecordLe, Manifest(a, sha256)) == Sort(RecordLe, Manifest(b, sha256))
  {
    FlatMapReordered(RecordsOf(sha256), a, b);
    RecordOrder();
    SortIsCanonical(RecordLe, Manifest(a, sha256), Manifest(b, sha256));
  }

  lemma {:induction false} FlatMapReordered<A, B>(f: A -> seq<B>, a: seq<A>, b: seq<A>)
    requires multiset(a) == multiset(b)
    ensures multiset(FlatMap(f, a)) == multiset(FlatMap(f, b))
    decreases |a|
  {
    FlatMapContents(f, a);
    FlatMapContents(f, b);
    ContentsReordered(f, a, b);
  }

  /** The multiset of all results. */
  ghost function Contents<A, B>(f: A -> seq<B>, xs: seq<A>): multiset<B>
    decreases |xs|
  {
    if xs == [] then multiset{} else Contents(f, xs[..|xs| - 1]) + multiset(f(xs[|xs| - 1]))
  }

  lemma {:induction false} FlatMapContents<A, B>(f: A -> seq<B>, xs: seq<A>)
    ensures multiset(FlatMap(f, xs)) == Contents(f, xs)
    decreases |xs|
  {
    if xs != [] {
      FlatMapContents(f, xs[..|xs| - 1]);
    }
  }

  lemma {:induction false} ContentsReordered<A, B>(f: A -> seq<B>, a: seq<A>, b: seq<A>)
    requires multiset(a) == multiset(b)
    ensures Contents(f, a) == Contents(f, b)
    decreases |a|
  {
    assert |a| == |multiset(a)| && |b| == |multiset(b)|;
    if a != [] {
      var n := |a| - 1;
      assert a[n] in multiset(b);
      var i :| 0 <= i < |b| && b[i] == a[n];
      WithoutOne(a, n);
      WithoutOne(b, i);
      assert Without(a, n) == a[..n];
      ContentsReordered(f, a[..n], Without(b, i));
      ContentsWithoutOne(f, b, i);
    }
  }

  function Without<A>(q: seq<A>, i: nat): seq<A>
    requires i < |q|
  {
    q[..i] + q[i + 1..]
  }

  lemma {:induction false} ContentsWithoutOne<A, B>(f: A -> seq<B>, q: seq<A>, i: nat)
    requires i < |q|
    ensures Contents(f, q) == Contents(f, Without(q, i)) + multiset(f(q[i]))
    decreases |q|
  {
    var n := |q| - 1;
    WithoutParts(q, i);
    if i < n {
      ContentsWithoutOne(f, q[..n], i);
    }
  }

  lemma WithoutParts<A>(q: seq<A>, i: nat)
    requires i < |q|
    ensures var n := |q| - 1;
            && |Without(q, i)| == n
            && (i == n ==> Without(q, i) == q[..n])
            && (i < n ==> q[..n][i] == q[i])
            && (i < n ==> Without(q, i)[..n - 1] == Without(q[..n], i) && Without(q, i)[n - 1] == q[n])
  {
  }

  lemma WithoutOne<A>(q: seq<A>, i: nat)
    requires i < |q|
    ensures multiset(Without(q, i)) == multiset(q) - multiset{q[i]}
  {
    assert q == q[..i] + [q[i]] + q[i + 1..];
  }
}
