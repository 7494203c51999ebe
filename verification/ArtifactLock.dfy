/** Agreement of the artifact lock with the release tree: `load_verified_release_artifacts`. */
module ArtifactLock {
  import opened Wrappers
  import opened Enumeration
  import opened Ordering
  import opened PosixPath
  import opened Framing
  import opened ReleaseTree

  // ----- portable paths

  const RESERVED_NAMES := {
    "CON", "PRN", "AUX", "NUL",
    "COM1", "COM2", "COM3", "COM4", "COM5", "COM6", "COM7", "COM8", "COM9",
    "LPT1", "LPT2", "LPT3", "LPT4", "LPT5", "LPT6", "LPT7", "LPT8", "LPT9" }

  function UpperChar(c: char): char {
    if 'a' <= c <= 'z' then (c as int - 32) as char else c
  }

  function Upper(s: string): string {
    seq(|s|, i requires 0 <= i < |s| => UpperChar(s[i]))
  }

  /** `part.split(".", 1)[0]`. */
  function BeforeDot(part: string): string {
    if part == "" || part[0] == '.' then "" else [part[0]] + BeforeDot(part[1..])
  }

  predicate PortablePart(part: string) {
    && part !in {"", ".", ".."}
    && !EndsWith(part, " ") && !EndsWith(part, ".")
    && Upper(BeforeDot(part)) !in RESERVED_NAMES
  }

  /** `_portable_relative_parts` accepts the path. */
  predicate Portable(relative: string) {
    && relative != "" && '\0' !in relative && '\\' !in relative && ':' !in relative
    && (forall part | part in Split(relative) :: PortablePart(part))
    && Parts(relative) == Split(relative)
  }

  /** The comparison with the normalized path never fails by itself. */
  lemma {:induction false} NormalizedAlready(parts: seq<string>)
    requires forall part | part in parts :: PortablePart(part)
    ensures Components(parts) == parts
    decreases |parts|
  {
    if parts != [] {
      assert parts[0] in parts;
      NormalizedAlready(parts[1..]);
      assert parts == [parts[0]] + parts[1..];
    }
  }

  lemma PortableByParts(relative: string)
    ensures Portable(relative)
       <==> relative != "" && '\0' !in relative && '\\' !in relative && ':' !in relative
            && forall part | part in Split(relative) :: PortablePart(part)
  {
    if forall part | part in Split(relative) :: PortablePart(part) {
      NormalizedAlready(Split(relative));
    }
  }

  // ----- lock records

  /** A JSON value where a string is expected; other values only count as true or false. */
  datatype Field = Text(text: string) | OtherFalsy | OtherTruthy

  predicate Holds(f: Field) {
    f.OtherTruthy? || (f.Text? && f.text != "")
  }

  predicate FilledText(f: Field) {
    f.Text? && f.text != ""
  }

  datatype LockRecord =
    | NoObject
    | LockRecord(path: Field, sha256: Field, license: Field, version: Field, origin: Field, source: Field)

  predicate IsHexDigest(s: string) {
    |s| == 64 && forall i | 0 <= i < |s| :: '0' <= s[i] <= '9' || 'a' <= s[i] <= 'f'
  }

  predicate RecordOk(r: LockRecord) {
    && r.LockRecord?
    && r.path.Text? && Portable(r.path.text) && IsMachineArtifact(r.path.text)
    && r.sha256.Text? && IsHexDigest(r.sha256.text)
    && FilledText(r.license) && FilledText(r.version)
    && FilledText(if Holds(r.origin) then r.origin else r.source)
  }

  /** The lock document; `artifacts` is none where the value is no array. */
  datatype Lock = Lock(
    schemaVersion: Field, profileVersion: Field, networkFetchIsFalse: bool, artifacts: Option<seq<LockRecord>>)

  const MAX_REGISTER_BYTES := 1024 * 1024

  datatype LockError = BadLock | BadRecord | DuplicatePath(path: string) | BadTree | InventoryDrift
    | Unreadable(path: string) | DigestMismatch(path: string)
    | ApprovedAbsent(path: string) | ApprovalDrift(path: string)

  ghost predicate RecordsOk(records: seq<LockRecord>) {
    (forall r | r in records :: RecordOk(r)) && PathsDistinct(records)
  }

  /** The lock's records by path. */
  ghost predicate IsIndex(byPath: map<string, LockRecord>, records: seq<LockRecord>) {
    && (forall r | r in records :: r.LockRecord? && r.path.Text? && r.path.text in byPath && byPath[r.path.text] == r)
    && (forall p | p in byPath :: byPath[p] in records && byPath[p].LockRecord? && byPath[p].path == Text(p))
  }

  // The index does not depend on what makes a record acceptable, only on its having a path.

  ghost predicate NeedsPath(ok: LockRecord -> bool) {
    forall r | ok(r) :: r.LockRecord? && r.path.Text?
  }

  ghost predicate AllOk(ok: LockRecord -> bool, records: seq<LockRecord>) {
    (forall r | r in records :: ok(r)) && PathsDistinct(records)
  }

  ghost predicate PathsDistinct(records: seq<LockRecord>) {
    forall i, j | 0 <= i < j < |records| ::
      records[i].LockRecord? && records[j].LockRecord? ==> records[i].path != records[j].path
  }

  method IndexBy(ok: LockRecord -> bool, records: seq<LockRecord>)
    returns (r: Result<map<string, LockRecord>, LockError>)
    requires NeedsPath(ok)
    ensures r.Ok? <==> AllOk(ok, records)
    ensures r.Ok? ==> IsIndex(r.value, records)
  {
    var byPath: map<string, LockRecord> := map[];
    for i := 0 to |records|
      invariant AllOk(ok, records[..i]) && IsIndex(byPath, records[..i])
    {
      var record := records[i];
      assert record in records;
      if !ok(record) {
        return Err(BadRecord);
      }
      if record.path.text in byPath {
        return Err(DuplicatePath(record.path.text));
      }
      assert records[..i + 1] == records[..i] + [record];
      byPath := byPath[record.path.text := record];
    }
    assert records[..|records|] == records;
    return Ok(byPath);
  }

  method IndexRecords(records: seq<LockRecord>) returns (r: Result<map<string, LockRecord>, LockError>)
    ensures r.Ok? <==> RecordsOk(records)
    ensures r.Ok? ==> IsIndex(r.value, records)
  {
    r := IndexBy(record => RecordOk(record), records);
  }

  // ----- the load

  /** The payload at a path is readable and has the locked digest. */
  ghost predicate Verified(read: string -> Option<Bytes>, sha256Hex: Bytes -> string, path: string, digest: string) {
    read(path).Some? && sha256Hex(read(path).value) == digest
  }

  ghost predicate Locked(records: seq<LockRecord>, path: string) {
    exists r :: r in records && r.LockRecord? && r.path == Text(path)
  }

  ghost predicate DigestsMatch(records: seq<LockRecord>, read: string -> Option<Bytes>, sha256Hex: Bytes -> string) {
    forall r | r in records && r.LockRecord? && r.path.Text? && r.sha256.Text? ::
      Verified(read, sha256Hex, r.path.text, r.sha256.text)
  }

  ghost predicate SameInventory(records: seq<LockRecord>, root: seq<Named>) {
    forall s :: IsListed(root, s) <==> Locked(records, s)
  }

  ghost predicate ApprovedMatch(records: seq<LockRecord>, read: string -> Option<Bytes>, sha256Hex: Bytes -> string,
        approved: map<string, string>)
  {
    forall p | p in approved :: Locked(records, p) && Verified(read, sha256Hex, p, approved[p])
  }

  /** Lock, tree, payloads and approved inputs agree. */
  ghost predicate Agrees(records: seq<LockRecord>, root: seq<Named>, read: string -> Option<Bytes>,
        sha256Hex: Bytes -> string, approved: map<string, string>)
  {
    && RecordsOk(records)
    && Regular(root)
    && SameInventory(records, root)
    && DigestsMatch(records, read, sha256Hex)
    && ApprovedMatch(records, read, sha256Hex, approved)
  }

  /** Every discovered payload has the digest of its record. */
  ghost predicate PayloadsMatch(discovered: seq<string>, byPath: map<string, LockRecord>,
        read: string -> Option<Bytes>, sha256Hex: Bytes -> string)
  {
    forall s | s in discovered :: s in byPath && byPath[s].LockRecord? && byPath[s].sha256.Text?
                                  && Verified(read, sha256Hex, s, byPath[s].sha256.text)
  }

  /** The payloads of exactly these paths. */
  ghost predicate ArePayloads(payloads: map<string, Bytes>, paths: seq<string>, read: string -> Option<Bytes>) {
    && (forall s :: s in payloads <==> s in paths)
    && ReadFrom(payloads, read)
  }

  ghost predicate ReadFrom(payloads: map<string, Bytes>, read: string -> Option<Bytes>) {
    forall s | s in payloads :: read(s) == Some(payloads[s])
  }

  ghost predicate AllIndexed(discovered: seq<string>, byPath: map<string, LockRecord>) {
    forall s | s in discovered :: s in byPath && RecordOk(byPath[s])
  }

  lemma PayloadStep(discovered: seq<string>, i: nat, byPath: map<string, LockRecord>, payloads: map<string, Bytes>,
        read: string -> Option<Bytes>, sha256Hex: Bytes -> string)
    requires i < |discovered| && ArePayloads(payloads, discovered[..i], read)
    requires PayloadsMatch(discovered[..i], byPath, read, sha256Hex)
    requires discovered[i] in byPath && RecordOk(byPath[discovered[i]])
    ensures var s := discovered[i]; var digest := byPath[s].sha256.text;
            && (Verified(read, sha256Hex, s, digest) ==>
                  PayloadsMatch(discovered[..i + 1], byPath, read, sha256Hex)
                  && ArePayloads(payloads[s := read(s).value], discovered[..i + 1], read))
            && (!Verified(read, sha256Hex, s, digest) ==> !PayloadsMatch(discovered, byPath, read, sha256Hex))
  {
    var s := discovered[i];
    assert s in discovered;
    assert discovered[..i + 1] == discovered[..i] + [s];
    if Verified(read, sha256Hex, s, byPath[s].sha256.text) {
      OneMorePayload(payloads, discovered[..i], read, s);
    }
  }

  lemma OneMorePayload(payloads: map<string, Bytes>, paths: seq<string>, read: string -> Option<Bytes>, s: string)
    requires ArePayloads(payloads, paths, read) && read(s).Some?
    ensures ArePayloads(payloads[s := read(s).value], paths + [s], read)
  {
  }

  method VerifyPayloads(discovered: seq<string>, byPath: map<string, LockRecord>, read: string -> Option<Bytes>,
        sha256Hex: Bytes -> string)
    returns (r: Result<map<string, Bytes>, LockError>)
    requires AllIndexed(discovered, byPath)
    ensures r.Ok? <==> PayloadsMatch(discovered, byPath, read, sha256Hex)
    ensures r.Ok? ==> ArePayloads(r.value, discovered, read)
  {
    var payloads: map<string, Bytes> := map[];
    for i := 0 to |discovered|
      invariant PayloadsMatch(discovered[..i], byPath, read, sha256Hex)
      invariant ArePayloads(payloads, discovered[..i], read)
    {
      var relative := discovered[i];
      PayloadStep(discovered, i, byPath, payloads, read, sha256Hex);
      var payload := read(relative);
      if payload.None? {
        return Err(Unreadable(relative));
      }
      if sha256Hex(payload.value) != byPath[relative].sha256.text {
        return Err(DigestMismatch(relative));
      }
      payloads := payloads[relative := payload.value];
    }
    assert discovered[..|discovered|] == discovered;
    return Ok(payloads);
  }

  ghost predicate ApprovalsMatch(payloads: map<string, Bytes>, sha256Hex: Bytes -> string, approved: map<string,
        string>)
  {
    forall p | p in approved :: p in payloads && sha256Hex(payloads[p]) == approved[p]
  }

  method CheckApproved(payloads: map<string, Bytes>, sha256Hex: Bytes -> string, approved: map<string, string>)
    returns (error: Option<LockError>)
    ensures error.None? <==> ApprovalsMatch(payloads, sha256Hex, approved)
  {
    var order := Enumerate(approved.Keys);
    for i := 0 to |order|
      invariant forall j | 0 <= j < i ::
        order[j] in payloads && order[j] in approved && sha256Hex(payloads[order[j]]) == approved[order[j]]
    {
      assert order[i] in Elements(order);
      if order[i] !in payloads {
        return Some(ApprovedAbsent(order[i]));
      }
      if sha256Hex(payloads[order[i]]) != approved[order[i]] {
        return Some(ApprovalDrift(order[i]));
      }
    }
    assert forall p | p in approved :: p in Elements(order);
    return None;
  }

  lemma InventoryByKeys(byPath: map<string, LockRecord>, records: seq<LockRecord>, root: seq<Named>,
        discovered: seq<string>)
    requires IsIndex(byPath, records)
    requires forall s :: s in discovered <==> IsListed(root, s)
    ensures byPath.Keys == Elements(discovered) <==> SameInventory(records, root)
    ensures byPath.Keys == Elements(discovered) ==> forall s :: s in discovered <==> s in byPath
  {
    assert forall s :: s in discovered <==> s in Elements(discovered);
    assert forall s :: s in byPath <==> s in byPath.Keys;
  }

  lemma ApprovedByPayloads(payloads: map<string, Bytes>, discovered: seq<string>, byPath: map<string, LockRecord>,
        records: seq<LockRecord>,
        read: string -> Option<Bytes>, sha256Hex: Bytes -> string, approved: map<string, string>)
    requires IsIndex(byPath, records) && (forall s :: s in discovered <==> s in byPath)
    requires ArePayloads(payloads, discovered, read)
    ensures ApprovalsMatch(payloads, sha256Hex, approved) <==> ApprovedMatch(records, read, sha256Hex, approved)
    ensures forall s :: s in payloads <==> Locked(records, s)
  {
  }

  /** A load succeeds exactly on agreement, and then yields the payload of every locked path
      and of nothing else. `read` is the confined read of a release file, `sha256Hex` the digest. */
  method LoadVerified(records: seq<LockRecord>, root: seq<Named>, read: string -> Option<Bytes>,
        sha256Hex: Bytes -> string, approved: map<string, string>)
    returns (r: Result<map<string, Bytes>, LockError>)
    requires ProperTree(root)
    ensures r.Ok? <==> Agrees(records, root, read, sha256Hex, approved)
    ensures r.Ok? ==> forall s :: s in r.value <==> Locked(records, s)
    ensures r.Ok? ==> ReadFrom(r.value, read)
  {
    var indexed := IndexRecords(records);
    if indexed.Err? {
      return Err(indexed.error);
    }
    var byPath := indexed.value;
    var listed := ListArtifacts(root);
    if listed.Err? {
      return Err(BadTree);
    }
    var discovered := listed.value;
    InventoryByKeys(byPath, records, root, discovered);
    if byPath.Keys == Elements(discovered) {
      SameSize(byPath.Keys, discovered);
    }
    if byPath.Keys != Elements(discovered) || |byPath.Keys| != |discovered| {
      return Err(InventoryDrift);
    }
    var payloads := VerifyPayloads(discovered, byPath, read, sha256Hex);
    if payloads.Err? {
      return payloads;
    }
    ApprovedByPayloads(payloads.value, discovered, byPath, records, read, sha256Hex, approved);
    var error := CheckApproved(payloads.value, sha256Hex, approved);
    if error.Some? {
      return Err(error.value);
    }
    return payloads;
  }

  predicate HeaderApproved(lock: Lock) {
    && lock.schemaVersion == Text("molit.profile-artifact-lock/1") && lock.profileVersion == Text("0.1.0")
    && lock.networkFetchIsFalse && lock.artifacts.Some?
  }

  /** The lock file, if it can be read, fits the limit and parses to an approved document. */
  function ApprovedLock(lockFile: Option<Bytes>, parse: Bytes -> Option<Lock>): Option<seq<LockRecord>> {
    if lockFile.None? || |lockFile.value| > MAX_REGISTER_BYTES then None
    else
      var lock := parse(lockFile.value);
      if lock.None? || !HeaderApproved(lock.value) then None else lock.value.artifacts
  }

  /** `load_verified_release_artifacts`, with the strict JSON reader as `parse`: the payloads
      come with the digest of the very lock that they were checked against. */
  method LoadRelease(lockFile: Option<Bytes>, parse: Bytes -> Option<Lock>, root: seq<Named>,
        read: string -> Option<Bytes>, sha256Hex: Bytes -> string, approved: map<string, string>)
    returns (r: Result<(map<string, Bytes>, string), LockError>)
    requires ProperTree(root)
    ensures r.Ok? <==> var records := ApprovedLock(lockFile, parse);
                       records.Some? && Agrees(records.value, root, read, sha256Hex, approved)
    ensures r.Ok? ==> forall s :: s in r.value.0 <==> Locked(ApprovedLock(lockFile, parse).value, s)
    ensures r.Ok? ==> ReadFrom(r.value.0, read) && r.value.1 == sha256Hex(lockFile.value)
  {
    var records := ApprovedLock(lockFile, parse);
    if records.None? {
      return Err(BadLock);
    }
    var loaded := LoadVerified(records.value, root, read, sha256Hex, approved);
    if loaded.Err? {
      return Err(loaded.error);
    }
    return Ok((loaded.value, sha256Hex(lockFile.value)));
  }

  /** The length comparison of the inventory check never fails by itself. */
  lemma SameSize(keys: set<string>, discovered: seq<string>)
    requires keys == Elements(discovered) && SortedByKey((k: string) => k, discovered)
    ensures |keys| == |discovered|
  {
    SortedHasNoDuplicates((k: string) => k, discovered);
    DistinctSize(discovered);
  }

  lemma {:induction false} DistinctSize(q: seq<string>)
    requires NoDuplicates(q)
    ensures |Elements(q)| == |q|
    decreases |q|
  {
    if q != [] {
      DistinctSize(q[1..]);
      assert q == [q[0]] + q[1..];
      assert Elements(q) == Elements(q[1..]) + {q[0]};
      assert q[0] !in Elements(q[1..]);
    }
  }
}
