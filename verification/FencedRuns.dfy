/** What runs of the fenced cluster can and cannot do: stale objects and deletions, the window
    between admission and storage, and where the guarantees end. */
module FencedRuns {
  import opened Wrappers
  import opened Decimal
  import opened FencingPolicy
  import opened CentralFence
  import opened FencedCluster

  // ----- stale objects

  ghost predicate Stale(s: State, o: Obj) {
    HasToken(o) && FenceFor(s, o).Some? && Token(o) < FenceToken(FenceFor(s, o))
  }

  lemma StaleStays(s: State, t: State, o: Obj)
    requires FencesInv(s) && FencesInv(t) && Later(s, t) && Stale(s, o)
    ensures Stale(t, o)
  {
    assert FenceInv(LedgerFor(s, o)) && FenceInv(LedgerFor(t, o));
    assert Extends(LedgerFor(s, o), LedgerFor(t, o));
    FenceMonotone(LedgerFor(s, o), LedgerFor(t, o));
  }

  /** The object is stored or on its way, and the webhook was asked about it. */
  ghost predicate Arriving(s: State, id: Id, o: Obj) {
    || (StoredAt(s, id, o) && s.objects[id].examined)
    || exists w :: w in s.pending && w.id == id && w.obj == o && w.examined
  }

  lemma AllowedIsAtFront(s: State, o: Obj)
    requires FencesInv(s) && Managed(o) && WebhookAllows(o, FenceFor(s, o))
    ensures HasToken(o) && FenceFor(s, o).Some? && Token(o) == FenceToken(FenceFor(s, o))
  {
    AdmittedIsBound(s, o);
    assert FenceInv(LedgerFor(s, o));
  }

  lemma StaleStep(s: State, step: Step, id: Id, o: Obj)
    requires Inv(s) && Enabled(s, step) && Managed(o) && Stale(s, o) && !Arriving(s, id, o)
    ensures !Arriving(Next(s, step), id, o)
  {
    if WebhookAllows(o, FenceFor(s, o)) {
      AllowedIsAtFront(s, o);
    }
  }

  lemma {:induction false} StaleNeverArrives(s: State, steps: seq<Step>, id: Id, o: Obj)
    requires Inv(s) && After(s, steps).Some? && Managed(o) && Stale(s, o) && !Arriving(s, id, o)
    ensures !Arriving(After(s, steps).value, id, o)
    decreases |steps|
  {
    if steps != [] {
      StepKeepsInv(s, steps[0]);
      StaleStays(s, Next(s, steps[0]), o);
      StaleStep(s, steps[0], id, o);
      StaleNeverArrives(Next(s, steps[0]), steps[1..], id, o);
    }
  }

  /** Once its tenant's fence is past a token, a managed object with that token that is neither
      stored nor on its way through the webhook is never stored again, in any run, except where the
      webhook is not asked. */
  lemma StaleNeverReturns(s: State, steps: seq<Step>, id: Id, o: Obj)
    requires Inv(s) && Versioned(s) && After(s, steps).Some?
    requires Managed(o) && Stale(s, o) && !Arriving(s, id, o)
    ensures StoredAt(After(s, steps).value, id, o) ==> Exempt(After(s, steps).value, id)
  {
    var t := After(s, steps).value;
    StaleNeverArrives(s, steps, id, o);
    RunKeepsVersioned(s, steps);
    if StoredAt(t, id, o) {
      assert KeptSound(t, id);
    }
  }

  // ----- deletions

  /** The object names a tenant, and the owner of the fence as its instance. */
  ghost predicate OwnedLike(o: Obj, f: Fence) {
    && Labelled(o, TENANT_ID) && IsTenantId(TenantOf(o)) && f.tenant == TenantOf(o)
    && Labelled(o, INSTANCE_ID) && o.labels.value[INSTANCE_ID] != "" && f.instance == o.labels.value[INSTANCE_ID]
  }

  /** Where the webhook is asked, a deletion is admitted exactly when the object belongs to the owner
      of the fence that is read for it and carries that fence's whole command; who asks does not
      matter. */
  lemma DeletionAdmittedExactly(s: State, id: Id)
    requires FencesInv(s) && id in s.objects && Managed(s.objects[id].obj) && DeletionExamined(id)
    ensures var o := s.objects[id].obj;
            Enabled(s, AdmitDeletion(id))
            <==> FenceFor(s, o).Some? && OwnedLike(o, FenceFor(s, o).value) && Carries(o, FenceFor(s, o).value.command)
  {
    var o := s.objects[id].obj;
    if FenceFor(s, o).Some? && Carries(o, FenceFor(s, o).value.command) {
      var l := LedgerFor(s, o);
      assert FenceInv(l);
      assert l.history[|l.history| - 1] in l.history;
    }
  }

  /** For an object that the webhook was asked about the token alone decides. */
  lemma ExaminedDeletionByToken(s: State, id: Id)
    requires Inv(s) && id in s.objects && s.objects[id].examined && Managed(s.objects[id].obj)
    requires DeletionExamined(id)
    ensures var o := s.objects[id].obj;
            && HasToken(o) && FenceFor(s, o).Some?
            && (Enabled(s, AdmitDeletion(id)) <==> Token(o) == FenceToken(FenceFor(s, o)))
  {
    AllowedExactlyAtFront(s, s.objects[id].obj);
  }

  lemma AllowedExactlyAtFront(s: State, o: Obj)
    requires FencesInv(s) && Bound(s, o) && Managed(o)
    ensures HasToken(o) && FenceFor(s, o).Some?
    ensures WebhookAllows(o, FenceFor(s, o)) <==> Token(o) == FenceToken(FenceFor(s, o))
  {
    BoundIsBehind(s, o);
    if Token(o) == FenceToken(FenceFor(s, o)) {
      FrontIsAllowed(s, o);
    } else if WebhookAllows(o, FenceFor(s, o)) {
      AllowedIsAtFront(s, o);
    }
  }

  /** A bound object with the fence's token carries the fence's command. */
  lemma FrontIsAllowed(s: State, o: Obj)
    requires FencesInv(s) && Bound(s, o) && HasToken(o) && Token(o) == FenceToken(FenceFor(s, o))
    ensures WebhookAllows(o, FenceFor(s, o))
  {
    var l := LedgerFor(s, o);
    assert FenceInv(l);
    var c :| c in l.history && Carries(o, c);
    var last := l.history[|l.history| - 1];
    assert last in l.history;
    OneCommandPerToken(l.history, c, last);
  }

  /** The deployment notes want every deletion with an older token rejected. That is so exactly
      for namespaces and jobs outside the control namespace. */
  lemma StaleDeletionRejectedExactly(s: State, id: Id)
    requires FencesInv(s) && id in s.objects && Managed(s.objects[id].obj) && Stale(s, s.objects[id].obj)
    ensures !Enabled(s, AdmitDeletion(id)) <==> DeletionExamined(id)
  {
    if WebhookAllows(s.objects[id].obj, FenceFor(s, s.objects[id].obj)) {
      AllowedIsAtFront(s, s.objects[id].obj);
    }
  }

  /** Once the fence is past the object's token, no deletion of it is admitted in any run for as
      long as that object is stored. */
  lemma StaleDeletionStaysRejected(s: State, steps: seq<Step>, id: Id, o: Obj)
    requires Inv(s) && After(s, steps).Some? && Managed(o) && Stale(s, o) && DeletionExamined(id)
    requires StoredAt(After(s, steps).value, id, o)
    ensures !Enabled(After(s, steps).value, AdmitDeletion(id))
  {
    RunKeepsInv(s, steps);
    StaleStays(s, After(s, steps).value, o);
    StaleDeletionRejectedExactly(After(s, steps).value, id);
  }

  // ----- writes admitted before the fence moved

  /** An object, stale or not, can be stored next exactly when a write of it was admitted
      before and the object it replaces has not changed since: the fence is not read again. */
  lemma StoredNextExactly(s: State, id: Id, o: Obj)
    requires !StoredAt(s, id, o)
    ensures (exists step :: Enabled(s, step) && StoredAt(Next(s, step), id, o))
       <==> exists w :: w in s.pending && w.id == id && w.obj == o && w.expected == Revision(s, id)
  {
    forall w | w in s.pending && w.id == id && w.obj == o && w.expected == Revision(s, id)
      ensures exists step :: Enabled(s, step) && StoredAt(Next(s, step), id, o)
    {
      assert Enabled(s, Store(w)) && StoredAt(Next(s, Store(w)), id, o);
    }
    forall step | Enabled(s, step) && StoredAt(Next(s, step), id, o)
      ensures exists w :: w in s.pending && w.id == id && w.obj == o && w.expected == Revision(s, id)
    {
      OnlyStoreStores(s, step, id, o);
    }
  }

  lemma OnlyStoreStores(s: State, step: Step, id: Id, o: Obj)
    requires Enabled(s, step) && !StoredAt(s, id, o) && StoredAt(Next(s, step), id, o)
    ensures step.Store? && step.write in s.pending
    ensures step.write.id == id && step.write.obj == o && step.write.expected == Revision(s, id)
  {
  }

  /** An object can be marked as terminating next exactly when a deletion of just its stored revision was
      admitted before: a deletion never hits an object that replaced the one it was admitted for. */
  lemma TerminatingNextExactly(s: State, id: Id)
    requires id in s.objects && !Terminating(s, id)
    ensures (exists step :: Enabled(s, step) && Terminating(Next(s, step), id))
       <==> Deletion(id, s.objects[id].revision) in s.deletions
  {
    var deletion := Deletion(id, s.objects[id].revision);
    if deletion in s.deletions {
      assert Enabled(s, Terminate(deletion)) && Terminating(Next(s, Terminate(deletion)), id);
    }
    forall step | Enabled(s, step) && Terminating(Next(s, step), id)
      ensures deletion in s.deletions
    {
      OnlyDeletionsMark(s, step, id);
    }
  }

  lemma OnlyDeletionsMark(s: State, step: Step, id: Id)
    requires id in s.objects && !Terminating(s, id) && Enabled(s, step) && Terminating(Next(s, step), id)
    ensures step == Terminate(Deletion(id, s.objects[id].revision)) && step.deletion in s.deletions
  {
  }

  // ----- building runs

  ghost predicate Runs(s: State, steps: seq<Step>, t: State) {
    After(s, steps) == Some(t)
  }

  lemma {:induction false} JoinRuns(s: State, a: seq<Step>, t: State, b: seq<Step>, u: State)
    requires Runs(s, a, t) && Runs(t, b, u)
    ensures Runs(s, a + b, u)
    decreases |a|
  {
    if a == [] {
      assert a + b == b;
    } else {
      FirstStep(s, a);
      JoinRuns(Next(s, a[0]), a[1..], t, b, u);
      assert (a + b)[0] == a[0] && (a + b)[1..] == a[1..] + b;
      FirstStep(s, a + b);
    }
  }

  lemma FirstStep(s: State, steps: seq<Step>)
    requires steps != []
    ensures After(s, steps) == if Enabled(s, steps[0]) then After(Next(s, steps[0]), steps[1..]) else None
  {
  }

  lemma OneStep(s: State, step: Step)
    requires Enabled(s, step)
    ensures Runs(s, [step], Next(s, step))
  {
    assert [step][1..] == [];
    assert After(Next(s, step), []) == Some(Next(s, step));
  }

  lemma TwoSteps(s: State, a: Step, b: Step)
    requires Enabled(s, a) && Enabled(Next(s, a), b)
    ensures Runs(s, [a, b], Next(Next(s, a), b))
  {
    OneStep(s, a);
    OneStep(Next(s, a), b);
    JoinRuns(s, [a], Next(s, a), [b], Next(Next(s, a), b));
    assert [a] + [b] == [a, b];
  }

  /** The fence that the provisioner writes for the tenant. */
  function WrittenLedger(s: State, tenant: string): Ledger {
    LedgerOf(s, WrittenName(s.hash, tenant))
  }

  /** The claim of a command by a controller that is not disturbed. */
  lemma ClaimRun(s: State, f: Fence) returns (steps: seq<Step>, t: State)
    requires ValidToken(f.command.token) && FenceToken(WrittenLedger(s, f.tenant).fence) < Number(f.command.token)
    requires WrittenLedger(s, f.tenant).fence.Some? ==> SameOwner(WrittenLedger(s, f.tenant).fence.value, f)
    ensures Runs(s, steps, t) && WrittenLedger(t, f.tenant).fence == Some(f)
    ensures forall name | name != WrittenName(s.hash, f.tenant) :: LedgerOf(t, name) == LedgerOf(s, name)
    ensures t == s.(ledgers := t.ledgers)
  {
    var name, l := WrittenName(s.hash, f.tenant), WrittenLedger(s, f.tenant);
    var a := OnFence(name, Read(f.tenant, f.instance, f.command, f.holder));
    var b := OnFence(name, CompareAndSet(Claim(f.tenant, f.instance, f.command, f.holder, l.fence, l.version)));
    TwoSteps(s, a, b);
    steps := [a, b];
    t := Next(Next(s, a), b);
  }

  predicate IsWrite(step: Step) {
    step.Admit? || step.Store?
  }

  /** A write that is stored as soon as it is admitted. */
  lemma WriteRun(s: State, id: Id, obj: Obj) returns (steps: seq<Step>, t: State)
    requires Enabled(s, Admit(id, obj))
    ensures Runs(s, steps, t) && forall step | step in steps :: IsWrite(step)
    ensures t.ledgers == s.ledgers && t.hash == s.hash && t.objects.Keys == s.objects.Keys + {id}
    ensures StoredAt(t, id, obj) && (Terminating(t, id) <==> Terminating(s, id))
  {
    var a, b := Admit(id, obj), Store(Pending(id, obj, Revision(s, id), !Exempt(s, id)));
    TwoSteps(s, a, b);
    steps := [a, b];
    t := Next(Next(s, a), b);
  }

  /** An admitted deletion that takes effect at once, with finalizers left to run. */
  lemma DeleteRun(s: State, id: Id) returns (steps: seq<Step>, t: State)
    requires Enabled(s, AdmitDeletion(id))
    ensures Runs(s, steps, t) && forall step | step in steps :: step.AdmitDeletion? || step.Terminate?
    ensures t.ledgers == s.ledgers && t.hash == s.hash && Terminating(t, id) && StoredAt(t, id, s.objects[id].obj)
  {
    var a, b := AdmitDeletion(id), Terminate(Deletion(id, s.objects[id].revision));
    TwoSteps(s, a, b);
    steps := [a, b];
    t := Next(Next(s, a), b);
  }

  /** A write without the managed label and a managed one after it. */
  lemma ResetRun(s: State, id: Id, obj: Obj) returns (steps: seq<Step>, t: State)
    requires Managed(obj) && HasToken(obj) && (Exempt(s, id) || WebhookAllows(obj, FenceFor(s, obj)))
    ensures Runs(s, steps, t) && forall step | step in steps :: IsWrite(step)
    ensures StoredAt(t, id, obj)
  {
    var bare := Obj(None, None);
    var a, r := WriteRun(s, id, bare);
    FirstWriteMeaning(obj, Some(bare));
    var b, u := WriteRun(r, id, obj);
    JoinRuns(s, a, r, b, u);
    steps := a + b;
    t := u;
  }

  // ----- who can write

  /** A fence is read for an object only where the two names agree. */
  lemma ReadFenceIsNamed(s: State, o: Obj)
    requires FencesInv(s) && FenceFor(s, o).Some?
    ensures NamesAgree(TenantOf(o))
  {
    NamesAgreeExactly(s.hash, TenantOf(o));
    assert ReadName(TenantOf(o)) in s.ledgers;
  }

  lemma NamedFenceIsRead(s: State, f: Fence, o: Obj)
    requires NamesAgree(f.tenant) && WrittenLedger(s, f.tenant).fence == Some(f)
    requires Managed(o) && WebhookAllows(o, Some(f))
    ensures FenceFor(s, o) == Some(f)
  {
    NamesAgreeExactly(s.hash, f.tenant);
  }

  /** Where the webhook is asked, the holder of a tenant's current command can write, as far as the
      policy admits the write, exactly if the tenant's identifier has at most 50 characters: for a
      longer one the webhook reads a ConfigMap that the provisioner never writes. */
  lemma HolderCanWriteExactly(s: State, f: Fence, id: Id, obj: Obj)
    requires FencesInv(s) && WrittenLedger(s, f.tenant).fence == Some(f)
    requires Managed(obj) && WebhookAllows(obj, Some(f)) && Admits(obj, StoredObject(s, id)) && !Exempt(s, id)
    ensures Enabled(s, Admit(id, obj)) <==> NamesAgree(f.tenant)
  {
    if NamesAgree(f.tenant) {
      NamedFenceIsRead(s, f, obj);
    } else if FenceFor(s, obj).Some? {
      ReadFenceIsNamed(s, obj);
    }
  }

  /** So a managed object is stored under the webhook only for such a tenant. */
  lemma StoredIsNamed(s: State, id: Id, o: Obj)
    requires Inv(s) && Versioned(s) && StoredAt(s, id, o) && Managed(o) && !Exempt(s, id)
    ensures NamesAgree(TenantOf(o))
  {
    assert KeptSound(s, id);
    BoundIsBehind(s, o);
    ReadFenceIsNamed(s, o);
  }

  // ----- where the guarantees end

  ghost predicate OutlivesFence(hash: string -> string, steps: seq<Step>, id: Id, o: Obj) {
    && After(Empty(hash), steps).Some?
    && Stale(After(Empty(hash), steps).value, o) && StoredAt(After(Empty(hash), steps).value, id, o)
  }

  lemma OutlivingRun(hash: string -> string, older: Fence, newer: Fence, id: Id, o: Obj) returns (steps: seq<Step>)
    requires ValidToken(older.command.token) && ValidToken(newer.command.token)
    requires Number(older.command.token) < Number(newer.command.token) && SameOwner(older, newer)
    requires Managed(o) && WebhookAllows(o, Some(older)) && NamesAgree(older.tenant)
    ensures OutlivesFence(hash, steps, id, o)
  {
    PositiveValue(older.command.token);
    var a, s := ClaimRun(Empty(hash), older);
    NamedFenceIsRead(s, older, o);
    FirstWriteMeaning(o, None);
    OneStep(s, Admit(id, o));
    var admitted := Next(s, Admit(id, o));
    var b, t := ClaimRun(admitted, newer);
    var w := Pending(id, o, None, !Exempt(s, id));
    OneStep(t, Store(w));
    NamesAgreeExactly(hash, older.tenant);
    JoinRuns(Empty(hash), a, s, [Admit(id, o)], admitted);
    JoinRuns(Empty(hash), a + [Admit(id, o)], admitted, b, t);
    steps := a + [Admit(id, o)] + b + [Store(w)];
    JoinRuns(Empty(hash), a + [Admit(id, o)] + b, t, [Store(w)], Next(t, Store(w)));
  }

  /** The window between admission and storage is real: for any two commands of one owner with
      growing tokens there is a run in which a write of the older one is stored after the fence has
      moved to the newer one, exactly if the webhook reads the tenant's fence at all. */
  lemma AdmittedWriteOutlivesFence(hash: string -> string, older: Fence, newer: Fence, id: Id, o: Obj)
    requires ValidToken(older.command.token) && ValidToken(newer.command.token)
    requires Number(older.command.token) < Number(newer.command.token) && SameOwner(older, newer)
    requires Managed(o) && WebhookAllows(o, Some(older))
    ensures (exists steps :: OutlivesFence(hash, steps, id, o)) <==> NamesAgree(older.tenant)
  {
    if NamesAgree(older.tenant) {
      var steps := OutlivingRun(hash, older, newer, id, o);
    }
    forall steps | OutlivesFence(hash, steps, id, o)
      ensures NamesAgree(older.tenant)
    {
      RunKeepsInv(Empty(hash), steps);
      ReadFenceIsNamed(After(Empty(hash), steps).value, o);
    }
  }

  /** While the object is stored and its deletion has not taken effect, no managed object of the
      same tenant is stored in its place without superseding it. */
  ghost predicate NeverGoesBack(s: State, id: Id, a: Obj) {
    forall steps, b | EndsWith(s, steps, id, b) && Managed(b) && TenantOf(b) == TenantOf(a) :: IsSuperseded(a, b)
  }

  ghost predicate EndsWith(s: State, steps: seq<Step>, id: Id, b: Obj) {
    && After(s, steps).Some? && (forall step | step in steps :: Undeleted(id, step) && step != Remove(id))
    && StoredAt(After(s, steps).value, id, b)
  }

  /** In every reachable state that is so exactly where the webhook is asked: not in the control
      namespace, and not while a deletion is being finalized. */
  lemma NeverGoesBackExactly(hash: string -> string, before: seq<Step>, id: Id, a: Obj)
    requires After(Empty(hash), before).Some? && Managed(a) && StoredAt(After(Empty(hash), before).value, id, a)
    ensures NeverGoesBack(After(Empty(hash), before).value, id, a) <==> !Exempt(After(Empty(hash), before).value, id)
  {
    var s := After(Empty(hash), before).value;
    if Exempt(s, id) {
      var b := Obj(a.labels, Some(map[FENCING_TOKEN := "1"]));
      assert HasToken(b) && !HasCommand(b) && Token(b) == 1 by {
        assert OPERATION_KEY in COMMAND_KEYS && OPERATION_KEY != FENCING_TOKEN;
        assert Value("1"[..0]) == 0;
      }
      var steps, t := ResetRun(s, id, b);
      assert EndsWith(s, steps, id, b);
      if IsSuperseded(a, b) {
        PositiveValue(Annotation(a, FENCING_TOKEN));
        assert false;
      }
    } else {
      forall steps, b | EndsWith(s, steps, id, b) && Managed(b) && TenantOf(b) == TenantOf(a)
        ensures IsSuperseded(a, b)
      {
        StoredNeverGoesBack(hash, before, steps, id, a, b);
      }
    }
  }

  lemma CreateRun(hash: string -> string, f: Fence, id: Id, a: Obj) returns (steps: seq<Step>, t: State)
    requires ValidToken(f.command.token) && Managed(a) && WebhookAllows(a, Some(f)) && NamesAgree(f.tenant)
    ensures Runs(Empty(hash), steps, t) && StoredAt(t, id, a) && !Terminating(t, id)
    ensures t.hash == hash && WrittenLedger(t, f.tenant).fence == Some(f)
    ensures forall name | name != WrittenName(hash, f.tenant) :: LedgerOf(t, name) == NO_FENCE
  {
    PositiveValue(f.command.token);
    var claim, s := ClaimRun(Empty(hash), f);
    FirstWriteMeaning(a, None);
    NamedFenceIsRead(s, f, a);
    var write, u := WriteRun(s, id, a);
    JoinRuns(Empty(hash), claim, s, write, u);
    steps, t := claim + write, u;
    forall name | name != WrittenName(hash, f.tenant)
      ensures LedgerOf(u, name) == NO_FENCE
    {
      assert LedgerOf(u, name) == LedgerOf(s, name) == LedgerOf(Empty(hash), name);
    }
  }

  /** `a` is stored under the webhook; the steps delete the object and, without removing it and
      without a step of any fence, leave `b` in its place. */
  ghost predicate TakesAfterDeletion(hash: string -> string, before: seq<Step>, steps: seq<Step>, id: Id, a: Obj,
        b: Obj)
  {
    && After(Empty(hash), before).Some?
    && var s := After(Empty(hash), before).value;
       && StoredAt(s, id, a) && !Exempt(s, id)
       && After(s, steps).Some? && StoredAt(After(s, steps).value, id, b)
       && forall step | step in steps :: !step.Remove? && !step.OnFence?
  }

  lemma DeletionRun(hash: string -> string, f: Fence, id: Id, a: Obj, b: Obj)
    returns (before: seq<Step>, steps: seq<Step>)
    requires ValidToken(f.command.token) && Managed(a) && WebhookAllows(a, Some(f)) && NamesAgree(f.tenant)
    requires id.namespace != CONTROL_NAMESPACE && Managed(b) && HasToken(b)
    ensures TakesAfterDeletion(hash, before, steps, id, a, b)
  {
    var s;
    before, s := CreateRun(hash, f, id, a);
    NamedFenceIsRead(s, f, a);
    var delete, t := DeleteRun(s, id);
    var reset, u := ResetRun(t, id, b);
    JoinRuns(s, delete, t, reset, u);
    steps := delete + reset;
  }

  /** A terminating object takes anything: for any object that the webhook admits under some fence,
      and any managed object with a positive token, smaller or beyond the fence, there is a run that
      stores the first, deletes it, and then, without removing it, stores the second; exactly if the
      webhook reads that fence. */
  lemma TerminatingTakesAnything(hash: string -> string, f: Fence, id: Id, a: Obj, b: Obj)
    requires ValidToken(f.command.token) && Managed(a) && WebhookAllows(a, Some(f))
    requires id.namespace != CONTROL_NAMESPACE && Managed(b) && HasToken(b)
    ensures (exists before, steps :: TakesAfterDeletion(hash, before, steps, id, a, b)) <==> NamesAgree(f.tenant)
  {
    if NamesAgree(f.tenant) {
      var before, steps := DeletionRun(hash, f, id, a, b);
    }
    forall before, steps | TakesAfterDeletion(hash, before, steps, id, a, b)
      ensures NamesAgree(f.tenant)
    {
      RunKeepsInv(Empty(hash), before);
      RunKeepsVersioned(Empty(hash), before);
      StoredIsNamed(After(Empty(hash), before).value, id, a);
    }
  }

  /** `a` is stored, not terminating, and the steps only write and leave `b` in its place. */
  ghost predicate IsReplaced(hash: string -> string, before: seq<Step>, steps: seq<Step>, id: Id, a: Obj, b: Obj) {
    && After(Empty(hash), before).Some?
    && var s := After(Empty(hash), before).value;
       && StoredAt(s, id, a) && !Terminating(s, id)
       && After(s, steps).Some? && StoredAt(After(s, steps).value, id, b)
       && forall step | step in steps :: IsWrite(step)
  }

  lemma ReplacingRun(hash: string -> string, f: Fence, g: Fence, id: Id, a: Obj, b: Obj)
    returns (before: seq<Step>, steps: seq<Step>)
    requires f.tenant != g.tenant && ValidToken(f.command.token) && ValidToken(g.command.token)
    requires Managed(a) && WebhookAllows(a, Some(f)) && NamesAgree(f.tenant)
    requires Managed(b) && WebhookAllows(b, Some(g)) && NamesAgree(g.tenant)
    ensures IsReplaced(hash, before, steps, id, a, b)
  {
    PositiveValue(g.command.token);
    NamesAgreeExactly(hash, f.tenant);
    NamesAgreeExactly(hash, g.tenant);
    assert ReadName(f.tenant)[|FENCE_PREFIX|..] == f.tenant && ReadName(g.tenant)[|FENCE_PREFIX|..] == g.tenant;
    var create, r := CreateRun(hash, f, id, a);
    var claim, s := ClaimRun(r, g);
    JoinRuns(Empty(hash), create, r, claim, s);
    before := create + claim;
    NamedFenceIsRead(s, g, b);
    var t;
    steps, t := ResetRun(s, id, b);
  }

  lemma ExemptReplacingRun(hash: string -> string, id: Id, a: Obj, b: Obj) returns (before: seq<Step>, steps: seq<Step>)
    requires id.namespace == CONTROL_NAMESPACE && Managed(a) && HasToken(a) && Managed(b) && HasToken(b)
    ensures IsReplaced(hash, before, steps, id, a, b)
  {
    FirstWriteMeaning(a, None);
    var s, t;
    before, s := WriteRun(Empty(hash), id, a);
    steps, t := ResetRun(s, id, b);
  }

  lemma {:induction false} WritesDoNotDelete(s: State, steps: seq<Step>, id: Id)
    requires After(s, steps).Some? && forall step | step in steps :: IsWrite(step)
    ensures Terminating(After(s, steps).value, id) ==> Terminating(s, id)
    decreases |steps|
  {
    if steps != [] {
      assert steps[0] in steps;
      WritesDoNotDelete(Next(s, steps[0]), steps[1..], id);
    }
  }

  lemma ReplacedIsNamed(hash: string -> string, before: seq<Step>, steps: seq<Step>, id: Id, a: Obj, b: Obj)
    requires IsReplaced(hash, before, steps, id, a, b) && id.namespace != CONTROL_NAMESPACE
    requires Managed(a) && Managed(b)
    ensures NamesAgree(TenantOf(a)) && NamesAgree(TenantOf(b))
  {
    var s := After(Empty(hash), before).value;
    RunKeepsInv(Empty(hash), before);
    RunKeepsVersioned(Empty(hash), before);
    StoredIsNamed(s, id, a);
    RunKeepsInv(s, steps);
    RunKeepsVersioned(s, steps);
    WritesDoNotDelete(s, steps, id);
    StoredIsNamed(After(s, steps).value, id, b);
  }

  /** One tenant cannot be dropped from the claim either: an object that the webhook admits for one
      tenant can be followed, in its place and without a deletion, by any object that it admits for
      another tenant, whatever their tokens, exactly in the control namespace and where the webhook
      reads the fences of both. */
  lemma TenantsAreNotCompared(hash: string -> string, f: Fence, g: Fence, id: Id, a: Obj, b: Obj)
    requires f.tenant != g.tenant && ValidToken(f.command.token) && ValidToken(g.command.token)
    requires Managed(a) && WebhookAllows(a, Some(f)) && Managed(b) && WebhookAllows(b, Some(g))
    ensures (exists before, steps :: IsReplaced(hash, before, steps, id, a, b))
       <==> id.namespace == CONTROL_NAMESPACE || (NamesAgree(f.tenant) && NamesAgree(g.tenant))
  {
    if id.namespace == CONTROL_NAMESPACE {
      var before, steps := ExemptReplacingRun(hash, id, a, b);
    } else if NamesAgree(f.tenant) && NamesAgree(g.tenant) {
      var before, steps := ReplacingRun(hash, f, g, id, a, b);
    }
    forall before, steps | IsReplaced(hash, before, steps, id, a, b) && id.namespace != CONTROL_NAMESPACE
      ensures NamesAgree(f.tenant) && NamesAgree(g.tenant)
    {
      ReplacedIsNamed(hash, before, steps, id, a, b);
    }
  }
}
