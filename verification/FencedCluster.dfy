/** Admission and storage of objects under the central fences of all tenants: the webhook and
    where it is not asked, the policy, deletion in two phases, and writes that are stored some
    time after they were admitted. */
module FencedCluster {
  import opened Wrappers
  import opened Decimal
  import opened FencingPolicy
  import opened CentralFence

  // ----- the admission webhook

  predicate Labelled(o: Obj, key: string) {
    o.labels.Some? && key in o.labels.value
  }

  /** The pattern `^[a-z][a-z0-9-]{2,62}$`. */
  predicate IsTenantId(s: string) {
    3 <= |s| <= 63 && 'a' <= s[0] <= 'z'
    && forall i | 1 <= i < |s| :: 'a' <= s[i] <= 'z' || '0' <= s[i] <= '9' || s[i] == '-'
  }

  predicate CommandMatches(o: Obj, c: Command) {
    && HasAnnotation(o, OPERATION_KEY, c.operationKey) && HasAnnotation(o, GENERATION, c.generation)
    && HasAnnotation(o, INTENT_DIGEST, c.intentDigest) && HasAnnotation(o, DESIRED_STATE, c.desiredState)
  }

  predicate HasAnnotation(o: Obj, key: string, value: string) {
    Annotated(o, key) && Annotation(o, key) == value
  }

  /** The decision of `validateFencingAdmission` on the object that a request is about; `fence`
      is what the central read returned for the object's tenant, or nothing when it failed. */
  predicate WebhookAllows(o: Obj, fence: Option<Fence>) {
    if !Managed(o) then true
    else if !Labelled(o, TENANT_ID) || !IsTenantId(o.labels.value[TENANT_ID]) then false
    else if !Labelled(o, INSTANCE_ID) || o.labels.value[INSTANCE_ID] == "" || !HasToken(o) then false
    else if fence.None? then false
    else
      && fence.value.tenant == o.labels.value[TENANT_ID] && fence.value.instance == o.labels.value[INSTANCE_ID]
      && IsPositiveDecimal(fence.value.command.token)
      && Annotation(o, FENCING_TOKEN) == fence.value.command.token
      && CommandMatches(o, fence.value.command)
  }

  // ----- the names of fences

  const FENCE_PREFIX := "tenant-fence-"

  /** The ConfigMap that the webhook reads. */
  function ReadName(tenant: string): string {
    FENCE_PREFIX + tenant
  }

  function WithoutTrailingHyphens(s: string): string {
    if s != "" && s[|s| - 1] == '-' then WithoutTrailingHyphens(s[..|s| - 1]) else s
  }

  function Shortened(s: string, n: nat): string {
    if |s| <= n then s else s[..n]
  }

  /** `kubeName`, the ConfigMap that the provisioner writes: a name above 63 characters is cut and
      marked with the first digits of its hash. */
  function WrittenName(hash: string -> string, tenant: string): string {
    var name := FENCE_PREFIX + tenant;
    if |name| <= 63 then name
    else WithoutTrailingHyphens(Shortened(name, 50)) + "-" + Shortened(hash(name), 12)
  }

  /** Webhook and provisioner mean the same ConfigMap. */
  predicate NamesAgree(tenant: string) {
    |tenant| <= 50
  }

  lemma NotLonger(s: string)
    ensures |WithoutTrailingHyphens(s)| <= |s|
  {
  }

  /** Tenant identifiers may have up to 63 characters, but the names agree exactly up to 50. */
  lemma NamesAgreeExactly(hash: string -> string, tenant: string)
    ensures WrittenName(hash, tenant) == ReadName(tenant) <==> NamesAgree(tenant)
    ensures |WrittenName(hash, tenant)| <= 63
    ensures |ReadName(tenant)| <= 63 <==> NamesAgree(tenant)
  {
    NotLonger(Shortened(FENCE_PREFIX + tenant, 50));
    assert |FENCE_PREFIX| == 13;
  }

  /** The text ends in nothing but hyphens after `stem`, which does not end in one. */
  ghost predicate IsStemOf(stem: string, text: string) {
    && stem <= text && (forall i | |stem| <= i < |text| :: text[i] == '-')
    && (stem != "" ==> stem[|stem| - 1] != '-')
  }

  lemma {:induction false} StemOfText(s: string)
    ensures IsStemOf(WithoutTrailingHyphens(s), s)
    decreases |s|
  {
    if s != "" && s[|s| - 1] == '-' {
      StemOfText(s[..|s| - 1]);
      assert forall i | 0 <= i < |s| - 1 :: s[i] == s[..|s| - 1][i];
    }
  }

  /** What the provisioner writes for a longer name: at most 50 of its characters, without hyphens at
      the end, a hyphen, and at most 12 characters of a hash of the whole name. */
  lemma WrittenNameExactly(hash: string -> string, tenant: string, stem: string, digest: string)
    requires |tenant| > 50 && IsStemOf(stem, ("tenant-fence-" + tenant)[..50])
    requires digest <= hash("tenant-fence-" + tenant) && |digest| <= 12
    requires |digest| < 12 ==> digest == hash("tenant-fence-" + tenant)
    ensures WrittenName(hash, tenant) == stem + "-" + digest
  {
    var text := ("tenant-fence-" + tenant)[..50];
    StemOfText(text);
    StemNotLonger(text, stem, WithoutTrailingHyphens(text));
    StemNotLonger(text, WithoutTrailingHyphens(text), stem);
  }

  lemma StemNotLonger(text: string, a: string, b: string)
    requires IsStemOf(a, text) && IsStemOf(b, text)
    ensures |b| <= |a|
  {
  }

  // ----- the system

  /** Deletions of namespaces and jobs are sent to the webhook, those of other kinds are not. */
  datatype Kind = Namespaces | Jobs | Others

  datatype Id = Id(kind: Kind, namespace: string, name: string)

  /** The namespace of the fences, which the webhook leaves out. */
  const CONTROL_NAMESPACE := "molit-caas-system"

  /** `examined` tells whether the webhook was asked about the write. */
  datatype Kept = Kept(obj: Obj, revision: nat, terminating: bool, examined: bool)

  /** A write that admission let through but that is not stored yet; `expected` is the
      revision of the object it replaces. */
  datatype Pending = Pending(id: Id, obj: Obj, expected: Option<nat>, examined: bool)

  /** An admitted deletion of the object with this revision. */
  datatype Deletion = Deletion(id: Id, revision: nat)

  /** `ledgers` holds the fences by ConfigMap name; `hash` is the digest that long names are
      marked with. */
  datatype State = State(
    hash: string -> string, ledgers: map<string, Ledger>, objects: map<Id, Kept>, revision: nat,
    pending: set<Pending>, deletions: set<Deletion>)

  function Empty(hash: string -> string): State {
    State(hash, map[], map[], 0, {}, {})
  }

  datatype Step =
    | OnFence(name: string, step: FenceStep)
    | Admit(id: Id, obj: Obj)
    | Store(write: Pending)
    | AdmitDeletion(id: Id)
    | Terminate(deletion: Deletion)
    | Remove(id: Id)

  function LedgerOf(s: State, name: string): Ledger {
    if name in s.ledgers then s.ledgers[name] else NO_FENCE
  }

  function TenantOf(o: Obj): string {
    if Labelled(o, TENANT_ID) then o.labels.value[TENANT_ID] else ""
  }

  /** The fence that the webhook reads for the object. */
  function LedgerFor(s: State, o: Obj): Ledger {
    LedgerOf(s, ReadName(TenantOf(o)))
  }

  function FenceFor(s: State, o: Obj): Option<Fence> {
    LedgerFor(s, o).fence
  }

  function StoredObject(s: State, id: Id): Option<Obj> {
    if id in s.objects then Some(s.objects[id].obj) else None
  }

  function Revision(s: State, id: Id): Option<nat> {
    if id in s.objects then Some(s.objects[id].revision) else None
  }

  predicate Terminating(s: State, id: Id) {
    id in s.objects && s.objects[id].terminating
  }

  /** The webhook's match conditions leave a write of the object out: in the control namespace,
      and as an update while the object's deletion is being finalized. */
  predicate Exempt(s: State, id: Id) {
    id.namespace == CONTROL_NAMESPACE || Terminating(s, id)
  }

  /** The webhook is asked about a deletion of the object. */
  predicate DeletionExamined(id: Id) {
    !id.kind.Others? && id.namespace != CONTROL_NAMESPACE
  }

  predicate Enabled(s: State, step: Step) {
    match step
    case OnFence(name, f) =>
      FenceEnabled(LedgerOf(s, name), f) && (f.Read? ==> name == WrittenName(s.hash, f.tenant))
    case Admit(id, obj) =>
      (Exempt(s, id) || WebhookAllows(obj, FenceFor(s, obj))) && Admits(obj, StoredObject(s, id))
    case Store(write) => write in s.pending
    case AdmitDeletion(id) =>
      id in s.objects
      && (DeletionExamined(id) ==> WebhookAllows(s.objects[id].obj, FenceFor(s, s.objects[id].obj)))
    case Terminate(deletion) => deletion in s.deletions
    case Remove(id) => Terminating(s, id)
  }

  /** A write or deletion takes effect only on the revision that admission saw. */
  function Next(s: State, step: Step): State
    requires Enabled(s, step)
  {
    match step
    case OnFence(name, f) => s.(ledgers := s.ledgers[name := FenceNext(LedgerOf(s, name), f)])
    case Admit(id, obj) => s.(pending := s.pending + {Pending(id, obj, Revision(s, id), !Exempt(s, id))})
    case Store(write) =>
      var rest := s.(pending := s.pending - {write});
      if Revision(s, write.id) == write.expected
      then rest.(objects := s.objects[write.id := KeptBy(s, write)], revision := s.revision + 1)
      else rest
    case AdmitDeletion(id) => s.(deletions := s.deletions + {Deletion(id, s.objects[id].revision)})
    case Terminate(deletion) =>
      var rest := s.(deletions := s.deletions - {deletion});
      if Revision(s, deletion.id) == Some(deletion.revision)
      then rest.(objects := s.objects[deletion.id := MarkedForDeletion(s, deletion.id)], revision := s.revision + 1)
      else rest
    case Remove(id) => s.(objects := s.objects - {id})
  }

  function KeptBy(s: State, write: Pending): Kept {
    Kept(write.obj, s.revision + 1, Terminating(s, write.id), write.examined)
  }

  function MarkedForDeletion(s: State, id: Id): Kept
    requires id in s.objects
  {
    s.objects[id].(revision := s.revision + 1, terminating := true)
  }

  // ----- what every step keeps

  /** The object carries the command. */
  ghost predicate Carries(o: Obj, c: Command) {
    HasAnnotation(o, FENCING_TOKEN, c.token) && CommandMatches(o, c)
  }

  /** The object belongs to the owner of its tenant's fence and carries a command that the fence
      once had. */
  ghost predicate BoundTo(l: Ledger, o: Obj) {
    && Labelled(o, TENANT_ID) && IsTenantId(TenantOf(o))
    && Labelled(o, INSTANCE_ID) && o.labels.value[INSTANCE_ID] != ""
    && l.fence.Some? && l.fence.value.tenant == TenantOf(o) && l.fence.value.instance == o.labels.value[INSTANCE_ID]
    && exists c :: c in l.history && Carries(o, c)
  }

  ghost predicate Bound(s: State, o: Obj) {
    BoundTo(LedgerFor(s, o), o)
  }

  ghost predicate FencesInv(s: State) {
    && (forall name :: FenceInv(LedgerOf(s, name)))
    && (forall name | name in s.ledgers :: |name| <= 63)
  }

  ghost predicate Inv(s: State) {
    && FencesInv(s)
    && (forall id | id in s.objects && s.objects[id].examined && Managed(s.objects[id].obj) ::
          Bound(s, s.objects[id].obj))
    && (forall w | w in s.pending && w.examined && Managed(w.obj) :: Bound(s, w.obj))
  }

  /** All fences only extend. */
  ghost predicate Later(s: State, t: State) {
    forall name :: Extends(LedgerOf(s, name), LedgerOf(t, name))
  }

  lemma BoundStays(s: State, t: State, o: Obj)
    requires Later(s, t) && Bound(s, o)
    ensures Bound(t, o)
  {
    var l, m := LedgerFor(s, o), LedgerFor(t, o);
    var c :| c in l.history && Carries(o, c);
    assert Extends(l, m);
    CommandStays(l, m, c);
  }

  lemma AdmittedIsBound(s: State, o: Obj)
    requires FencesInv(s) && Managed(o) && WebhookAllows(o, FenceFor(s, o))
    ensures Bound(s, o) && FenceFor(s, o).Some? && Carries(o, FenceFor(s, o).value.command)
  {
    var l := LedgerFor(s, o);
    assert FenceInv(l);
    assert l.history[|l.history| - 1] in l.history;
  }

  lemma StepKeepsFences(s: State, step: Step)
    requires FencesInv(s) && Enabled(s, step)
    ensures FencesInv(Next(s, step)) && Later(s, Next(s, step))
  {
    var t := Next(s, step);
    forall name
      ensures FenceInv(LedgerOf(t, name)) && Extends(LedgerOf(s, name), LedgerOf(t, name))
    {
      assert FenceInv(LedgerOf(s, name));
      if step.OnFence? && step.name == name {
        FenceStepKeepsInv(LedgerOf(s, name), step.step);
        FenceStepExtends(LedgerOf(s, name), step.step);
      } else {
        assert LedgerOf(t, name) == LedgerOf(s, name);
      }
    }
    if step.OnFence? && step.step.Read? {
      NamesAgreeExactly(s.hash, step.step.tenant);
    }
  }

  /** Everything that is bound stays bound, and what a step adds is bound. */
  lemma StepKeepsInv(s: State, step: Step)
    requires Inv(s) && Enabled(s, step)
    ensures Inv(Next(s, step)) && Later(s, Next(s, step))
  {
    var t := Next(s, step);
    StepKeepsFences(s, step);
    forall id | id in t.objects && t.objects[id].examined && Managed(t.objects[id].obj)
      ensures Bound(t, t.objects[id].obj)
    {
      StoredStaysBound(s, step, id);
    }
    forall w | w in t.pending && w.examined && Managed(w.obj)
      ensures Bound(t, w.obj)
    {
      PendingStaysBound(s, step, w);
    }
  }

  lemma StoredStaysBound(s: State, step: Step, id: Id)
    requires Inv(s) && Enabled(s, step) && Later(s, Next(s, step)) && id in Next(s, step).objects
    requires Next(s, step).objects[id].examined && Managed(Next(s, step).objects[id].obj)
    ensures Bound(Next(s, step), Next(s, step).objects[id].obj)
  {
    var o := Next(s, step).objects[id].obj;
    if step.Store? && o == step.write.obj && step.write.examined {
      BoundStays(s, Next(s, step), o);
    } else {
      assert id in s.objects && s.objects[id].examined && s.objects[id].obj == o;
      BoundStays(s, Next(s, step), o);
    }
  }

  lemma PendingStaysBound(s: State, step: Step, w: Pending)
    requires Inv(s) && Enabled(s, step) && Later(s, Next(s, step)) && w in Next(s, step).pending
    requires w.examined && Managed(w.obj)
    ensures Bound(Next(s, step), w.obj)
  {
    if w !in s.pending {
      AdmittedIsBound(s, w.obj);
    }
    BoundStays(s, Next(s, step), w.obj);
  }

  // ----- runs

  /** The state after the steps, if each was enabled in turn. */
  function After(s: State, steps: seq<Step>): Option<State>
    decreases |steps|
  {
    if steps == [] then Some(s)
    else if Enabled(s, steps[0]) then After(Next(s, steps[0]), steps[1..])
    else None
  }

  lemma LaterTransitive(s: State, t: State, u: State)
    requires Later(s, t) && Later(t, u)
    ensures Later(s, u)
  {
    forall name
      ensures Extends(LedgerOf(s, name), LedgerOf(u, name))
    {
      ExtendsTransitive(LedgerOf(s, name), LedgerOf(t, name), LedgerOf(u, name));
    }
  }

  lemma {:induction false} RunKeepsInv(s: State, steps: seq<Step>)
    requires Inv(s) && After(s, steps).Some?
    ensures Inv(After(s, steps).value) && Later(s, After(s, steps).value)
    decreases |steps|
  {
    if steps != [] {
      StepKeepsInv(s, steps[0]);
      RunKeepsInv(Next(s, steps[0]), steps[1..]);
      LaterTransitive(s, Next(s, steps[0]), After(s, steps).value);
    }
  }

  /** An object of the system, stored or admitted, that the webhook was asked about. */
  ghost predicate Present(s: State, o: Obj) {
    || (exists id :: id in s.objects && s.objects[id].examined && s.objects[id].obj == o)
    || (exists w :: w in s.pending && w.examined && w.obj == o)
  }

  /** A bound object carries the command that its tenant's fence has, or an older one. */
  lemma BoundIsBehind(s: State, o: Obj)
    requires FencesInv(s) && Bound(s, o)
    ensures HasToken(o) && HasCommand(o) && FenceFor(s, o).Some?
    ensures Token(o) <= FenceToken(FenceFor(s, o)) <= MAX_INT64
  {
    var l := LedgerFor(s, o);
    assert FenceInv(l);
    var c :| c in l.history && Carries(o, c);
    LastIsGreatest(l, c);
  }

  lemma BoundAgree(s: State, a: Obj, b: Obj)
    requires FencesInv(s) && Bound(s, a) && Bound(s, b) && TenantOf(a) == TenantOf(b)
    ensures HasToken(a) && HasToken(b)
    ensures Token(a) == Token(b) ==> SameCommand(a, b)
  {
    var l := LedgerFor(s, a);
    assert FenceInv(l);
    var c :| c in l.history && Carries(a, c);
    var d :| d in l.history && Carries(b, d);
    if Token(a) == Token(b) {
      OneCommandPerToken(l.history, c, d);
    }
  }

  /** In every reachable state, whatever claims, retries, deletions, delayed writes, unlabelled
      writes and writes past the webhook came before: of the managed objects that the webhook was
      asked about, any two of one tenant that carry equal tokens carry the same complete command,
      and none carries a token beyond its tenant's fence. */
  lemma ReachableIsFenced(hash: string -> string, steps: seq<Step>, a: Obj, b: Obj)
    requires After(Empty(hash), steps).Some?
    requires Managed(a) && Present(After(Empty(hash), steps).value, a)
    requires Managed(b) && Present(After(Empty(hash), steps).value, b)
    ensures HasToken(a) && HasToken(b)
    ensures TenantOf(a) == TenantOf(b) && Token(a) == Token(b) ==> SameCommand(a, b)
    ensures Token(a) <= FenceToken(FenceFor(After(Empty(hash), steps).value, a))
  {
    var s := After(Empty(hash), steps).value;
    RunKeepsInv(Empty(hash), steps);
    BoundIsBehind(s, a);
    BoundIsBehind(s, b);
    if TenantOf(a) == TenantOf(b) {
      BoundAgree(s, a, b);
    }
  }

  // ----- what is admitted later

  /** The webhook lets a managed write through only at the front: it supersedes every object of
      its tenant that the fence was ever behind, whatever the policy compared it with. */
  lemma AdmittedSupersedes(s: State, obj: Obj, o: Obj)
    requires FencesInv(s) && Managed(obj) && WebhookAllows(obj, FenceFor(s, obj))
    requires Bound(s, o) && TenantOf(obj) == TenantOf(o)
    ensures HasToken(obj) && HasToken(o) && Supersedes(obj, o)
  {
    var l := LedgerFor(s, o);
    AdmittedIsBound(s, obj);
    BoundIsBehind(s, o);
    assert FenceInv(l);
    BoundAgree(s, obj, o);
  }

  /** Admission never goes back within a tenant, at any distance: a managed write that the webhook
      is asked about supersedes every object that it was asked about before, through deletions and
      through writes without the managed label. The policy alone does not promise this. */
  lemma AdmissionNeverGoesBack(s: State, steps: seq<Step>, o: Obj, id: Id, obj: Obj)
    requires Inv(s) && Managed(o) && Present(s, o)
    requires After(s, steps).Some? && Enabled(After(s, steps).value, Admit(id, obj))
    requires Managed(obj) && TenantOf(obj) == TenantOf(o) && !Exempt(After(s, steps).value, id)
    ensures HasToken(obj) && HasToken(o) && Supersedes(obj, o)
  {
    var t := After(s, steps).value;
    RunKeepsInv(s, steps);
    BoundStays(s, t, o);
    AdmittedSupersedes(t, obj, o);
  }

  // ----- one object's lifetime

  /** A write that can still be stored was admitted over the object it replaces, and the webhook
      was asked unless the object is exempt. */
  ghost predicate Current(s: State, w: Pending) {
    Admits(w.obj, StoredObject(s, w.id)) && (w.examined <==> !Exempt(s, w.id))
  }

  ghost predicate PendingSound(s: State, w: Pending) {
    && (w.expected == Revision(s, w.id) ==> Current(s, w))
    && (w.expected.None? ==> Admits(w.obj, None) && (w.examined <==> w.id.namespace != CONTROL_NAMESPACE))
    && (w.expected.Some? ==> w.expected.value <= s.revision)
    && (w.expected.Some? && w.id in s.objects ==> w.expected.value <= s.objects[w.id].revision)
  }

  ghost predicate KeptSound(s: State, id: Id)
    requires id in s.objects
  {
    s.objects[id].revision <= s.revision && (!Exempt(s, id) ==> s.objects[id].examined)
  }

  /** Revisions are handed out in order. */
  ghost predicate Versioned(s: State) {
    && (forall id | id in s.objects :: KeptSound(s, id))
    && (forall w | w in s.pending :: PendingSound(s, w))
  }

  lemma StepKeepsVersioned(s: State, step: Step)
    requires Versioned(s) && Enabled(s, step)
    ensures Versioned(Next(s, step))
  {
    var t := Next(s, step);
    forall id | id in t.objects
      ensures KeptSound(t, id)
    {
      StepKeepsKept(s, step, id);
    }
    forall w | w in t.pending
      ensures PendingSound(t, w)
    {
      StepKeepsPending(s, step, w);
    }
  }

  lemma StepKeepsKept(s: State, step: Step, id: Id)
    requires Versioned(s) && Enabled(s, step) && id in Next(s, step).objects
    ensures KeptSound(Next(s, step), id)
  {
    if step.Store? {
      assert PendingSound(s, step.write);
    }
    if id in s.objects {
      assert KeptSound(s, id);
    }
  }

  lemma StepKeepsPending(s: State, step: Step, w: Pending)
    requires Versioned(s) && Enabled(s, step) && w in Next(s, step).pending
    ensures PendingSound(Next(s, step), w)
  {
    if w.id in s.objects {
      assert KeptSound(s, w.id);
    }
    if w in s.pending {
      assert PendingSound(s, w);
    }
  }

  ghost predicate IsSuperseded(earlier: Obj, later: Obj) {
    HasToken(earlier) && HasToken(later) && Supersedes(later, earlier)
  }

  /** If it is managed and of the same tenant, the later object supersedes the earlier one. */
  ghost predicate NotBefore(earlier: Obj, later: Obj) {
    Managed(later) && TenantOf(later) == TenantOf(earlier) ==> IsSuperseded(earlier, later)
  }

  /** Since `o` was stored under `id` with revision `r`: what is stored there now is `o` or not
      before it, and neither is any write that can still be stored. */
  ghost predicate NotBehind(s: State, id: Id, o: Obj, r: nat) {
    && Bound(s, o) && id in s.objects && !Exempt(s, id) && r <= s.objects[id].revision
    && (s.objects[id].revision == r ==> s.objects[id].obj == o)
    && (s.objects[id].revision > r ==> NotBefore(o, s.objects[id].obj))
    && (forall w | w in s.pending && w.id == id && w.expected.Some? && w.expected.value > r :: NotBefore(o, w.obj))
  }

  /** No deletion of the object takes effect. */
  ghost predicate Undeleted(id: Id, step: Step) {
    step.Terminate? ==> step.deletion.id != id
  }

  lemma StepKeepsNotBehind(s: State, step: Step, id: Id, o: Obj, r: nat)
    requires Inv(s) && Versioned(s) && Enabled(s, step) && Undeleted(id, step)
    requires Managed(o) && NotBehind(s, id, o, r)
    ensures NotBehind(Next(s, step), id, o, r)
  {
    StepKeepsFences(s, step);
    BoundStays(s, Next(s, step), o);
    match step
    case Admit(at, obj) => AdmitKeepsNotBehind(s, at, obj, id, o, r);
    case Store(w) => StoreKeepsNotBehind(s, w, id, o, r);
    case _ => OtherStepKeepsNotBehind(s, step, id, o, r);
  }

  lemma OtherStepKeepsNotBehind(s: State, step: Step, id: Id, o: Obj, r: nat)
    requires Enabled(s, step) && !step.Admit? && !step.Store? && Undeleted(id, step)
    requires NotBehind(s, id, o, r) && Bound(Next(s, step), o)
    ensures NotBehind(Next(s, step), id, o, r)
  {
    UntouchedKeepsNotBehind(s, Next(s, step), id, o, r);
  }

  lemma UntouchedKeepsNotBehind(s: State, t: State, id: Id, o: Obj, r: nat)
    requires NotBehind(s, id, o, r) && Bound(t, o) && id in t.objects && t.objects[id] == s.objects[id]
    requires forall w | w in t.pending && w !in s.pending && w.id == id :: NotBefore(o, w.obj)
    ensures NotBehind(t, id, o, r)
  {
  }

  lemma AdmitKeepsNotBehind(s: State, at: Id, obj: Obj, id: Id, o: Obj, r: nat)
    requires Inv(s) && Enabled(s, Admit(at, obj)) && Managed(o) && NotBehind(s, id, o, r)
    requires Bound(Next(s, Admit(at, obj)), o)
    ensures NotBehind(Next(s, Admit(at, obj)), id, o, r)
  {
    if at == id && Managed(obj) && TenantOf(obj) == TenantOf(o) {
      AdmittedSupersedes(s, obj, o);
    }
    UntouchedKeepsNotBehind(s, Next(s, Admit(at, obj)), id, o, r);
  }

  lemma StoreKeepsNotBehind(s: State, w: Pending, id: Id, o: Obj, r: nat)
    requires Inv(s) && Versioned(s) && w in s.pending && Managed(o) && NotBehind(s, id, o, r)
    ensures NotBehind(Next(s, Store(w)), id, o, r)
  {
    assert PendingSound(s, w);
    assert KeptSound(s, id);
    BoundIsBehind(s, o);
    if w.id == id && w.expected == Revision(s, id) == Some(r) && Managed(w.obj) {
      ManagedUpdateMeaning(w.obj, o);
    }
    assert Bound(Next(s, Store(w)), o);
  }

  lemma {:induction false} RunKeepsNotBehind(s: State, steps: seq<Step>, id: Id, o: Obj, r: nat)
    requires Inv(s) && Versioned(s) && After(s, steps).Some?
    requires forall step | step in steps :: Undeleted(id, step)
    requires Managed(o) && NotBehind(s, id, o, r)
    ensures NotBehind(After(s, steps).value, id, o, r)
    decreases |steps|
  {
    if steps != [] {
      assert steps[0] in steps;
      StepKeepsInv(s, steps[0]);
      StepKeepsVersioned(s, steps[0]);
      StepKeepsNotBehind(s, steps[0], id, o, r);
      RunKeepsNotBehind(Next(s, steps[0]), steps[1..], id, o, r);
    }
  }

  lemma {:induction false} RunKeepsVersioned(s: State, steps: seq<Step>)
    requires Versioned(s) && After(s, steps).Some?
    ensures Versioned(After(s, steps).value)
    decreases |steps|
  {
    if steps != [] {
      StepKeepsVersioned(s, steps[0]);
      RunKeepsVersioned(Next(s, steps[0]), steps[1..]);
    }
  }

  /** The object is stored under its name. */
  ghost predicate StoredAt(s: State, id: Id, o: Obj) {
    id in s.objects && s.objects[id].obj == o
  }

  lemma StoredIsNotBehind(s: State, id: Id, o: Obj)
    requires Inv(s) && Versioned(s) && Managed(o) && StoredAt(s, id, o) && !Exempt(s, id)
    ensures NotBehind(s, id, o, s.objects[id].revision) && IsSuperseded(o, o)
  {
    assert KeptSound(s, id);
    BoundIsBehind(s, o);
    assert forall w | w in s.pending :: PendingSound(s, w);
  }

  /** Outside the control namespace and until its deletion takes effect, the token that an object
      stores for a tenant never decreases, and an equal one means the same command: in every run,
      with delayed writes, writes of other tenants, and writes that the policy does not examine in
      between. */
  lemma StoredNeverGoesBack(hash: string -> string, before: seq<Step>, steps: seq<Step>, id: Id, a: Obj, b: Obj)
    requires After(Empty(hash), before).Some? && After(After(Empty(hash), before).value, steps).Some?
    requires !Exempt(After(Empty(hash), before).value, id) && forall step | step in steps :: Undeleted(id, step)
    requires Managed(a) && StoredAt(After(Empty(hash), before).value, id, a)
    requires Managed(b) && StoredAt(After(After(Empty(hash), before).value, steps).value, id, b)
    requires TenantOf(a) == TenantOf(b)
    ensures IsSuperseded(a, b)
  {
    var s := After(Empty(hash), before).value;
    RunKeepsInv(Empty(hash), before);
    RunKeepsVersioned(Empty(hash), before);
    StoredIsNotBehind(s, id, a);
    RunKeepsNotBehind(s, steps, id, a, s.objects[id].revision);
  }
}
