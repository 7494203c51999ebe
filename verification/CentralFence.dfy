/** A central fence: commands are claimed by compare-and-set on one ConfigMap, by any number of
    controllers. */
module CentralFence {
  import opened Wrappers
  import opened Decimal
  import opened FencingPolicy

  const TENANT_ID := "caas.data.molit.go.kr/tenant-id"
  const INSTANCE_ID := "caas.data.molit.go.kr/instance-id"

  /** What a token is bound to. */
  datatype Command = Command(
    token: string, operationKey: string, generation: string, intentDigest: string, desiredState: string)

  /** The central ConfigMap: its owner labels, the claimed command and its holder. */
  datatype Fence = Fence(tenant: string, instance: string, command: Command, holder: string)

  /** A controller of a CaaS instance between reading a tenant's fence and writing it back. */
  datatype Claim = Claim(
    tenant: string, instance: string, command: Command, holder: string, seen: Option<Fence>, version: nat)

  /** A claim that returned normally: its controller goes on to write objects. */
  datatype Grant = Grant(command: Command, holder: string)

  /** One fence; `history` lists the commands that it was given, oldest first. */
  datatype Ledger = Ledger(
    fence: Option<Fence>, version: nat, history: seq<Command>, granted: set<Grant>, claims: set<Claim>)

  const NO_FENCE := Ledger(None, 0, [], {}, {})

  datatype FenceStep =
    | Read(tenant: string, instance: string, command: Command, holder: string)
    | CompareAndSet(claim: Claim)
    | RecordReceipt(grant: Grant)

  predicate SameFields(a: Command, b: Command) {
    && a.operationKey == b.operationKey && a.generation == b.generation
    && a.intentDigest == b.intentDigest && a.desiredState == b.desiredState
  }

  /** A token as a number; a claimed token always has the decimal pattern. */
  function Number(token: string): nat {
    if AllDigits(token) then Value(token) else 0
  }

  /** The token of a fence as read, or zero where there is none. */
  function FenceToken(fence: Option<Fence>): nat {
    if fence.Some? then Number(fence.value.command.token) else 0
  }

  predicate ValidToken(token: string) {
    IsPositiveDecimal(token) && Value(token) <= MAX_INT64
  }

  /** `ownedBy`: the labels name the claim's tenant and instance. */
  predicate OwnedBy(f: Fence, claim: Claim) {
    f.tenant == claim.tenant && f.instance == claim.instance
  }

  /** What one attempt of `#claimFence` comes to, from the fence it read: an error, a normal
      return with the fence as it is, or a write of the fence that the version may refuse. */
  datatype ClaimOutcome = NotOwned | FenceLost | Conflict | Repeated | Moved | Written

  function Outcome(l: Ledger, claim: Claim): ClaimOutcome {
    var c := claim.command;
    if claim.seen.Some? && !OwnedBy(claim.seen.value, claim) then NotOwned
    else if FenceToken(claim.seen) > Number(c.token) then FenceLost
    else if FenceToken(claim.seen) == Number(c.token) then
      if claim.seen.Some? && SameFields(claim.seen.value.command, c) then Repeated else Conflict
    else if claim.version != l.version then Moved
    else Written
  }

  predicate Granted(l: Ledger, claim: Claim) {
    Outcome(l, claim).Repeated? || Outcome(l, claim).Written?
  }

  function Claimed(l: Ledger, claim: Claim): Ledger {
    var given := if Granted(l, claim) then {Grant(claim.command, claim.holder)} else {};
    var rest := l.(claims := l.claims - {claim}, granted := l.granted + given);
    if Outcome(l, claim).Written?
    then rest.(fence := Some(Fence(claim.tenant, claim.instance, claim.command, claim.holder)),
               version := l.version + 1, history := l.history + [claim.command])
    else rest
  }

  predicate FenceEnabled(l: Ledger, step: FenceStep) {
    match step
    case Read(_, _, c, _) => ValidToken(c.token)
    case CompareAndSet(claim) => claim in l.claims && ValidToken(claim.command.token)
    case RecordReceipt(grant) =>
      grant in l.granted && l.fence.Some? && l.fence.value.command.token == grant.command.token
  }

  function FenceNext(l: Ledger, step: FenceStep): Ledger
    requires FenceEnabled(l, step)
  {
    match step
    case Read(tenant, instance, c, holder) =>
      l.(claims := l.claims + {Claim(tenant, instance, c, holder, l.fence, l.version)})
    case CompareAndSet(claim) => Claimed(l, claim)
    case RecordReceipt(grant) => l.(fence := Some(l.fence.value.(command := grant.command)), version := l.version + 1)
  }

  // ----- what every step keeps

  ghost predicate Increasing(history: seq<Command>) {
    && (forall i | 0 <= i < |history| :: ValidToken(history[i].token))
    && (forall i, j | 0 <= i < j < |history| :: Number(history[i].token) < Number(history[j].token))
  }

  ghost predicate FenceIsLast(l: Ledger) {
    && (l.fence.Some? <==> l.history != [])
    && (l.fence.Some? ==> l.fence.value.command == l.history[|l.history| - 1])
  }

  ghost predicate ClaimSound(l: Ledger, claim: Claim) {
    && claim.version <= l.version
    && (claim.version == l.version ==> claim.seen == l.fence)
    && (claim.seen.Some? ==> claim.seen.value.command in l.history)
  }

  ghost predicate FenceInv(l: Ledger) {
    && Increasing(l.history) && FenceIsLast(l)
    && (forall grant | grant in l.granted :: grant.command in l.history)
    && (forall claim | claim in l.claims :: ClaimSound(l, claim))
  }

  /** A token is bound to one command for ever. */
  lemma OneCommandPerToken(history: seq<Command>, a: Command, b: Command)
    requires Increasing(history) && a in history && b in history && Number(a.token) == Number(b.token)
    ensures a == b
  {
  }

  lemma SameNumberSameToken(a: string, b: string)
    requires IsPositiveDecimal(a) && IsPositiveDecimal(b) && Value(a) == Value(b)
    ensures a == b
  {
    ToDigitsOfValue(a);
    ToDigitsOfValue(b);
  }

  lemma LastIsGreatest(l: Ledger, c: Command)
    requires Increasing(l.history) && FenceIsLast(l) && c in l.history
    ensures l.fence.Some? && Number(c.token) <= FenceToken(l.fence)
  {
  }

  /** A repeated claim is granted only for the command that the token is bound to. */
  lemma RepeatedClaim(l: Ledger, claim: Claim)
    requires FenceInv(l) && FenceEnabled(l, CompareAndSet(claim)) && Outcome(l, claim).Repeated?
    ensures claim.command == claim.seen.value.command && claim.command in l.history
  {
    assert ClaimSound(l, claim);
    var seen := claim.seen.value.command;
    var i :| 0 <= i < |l.history| && l.history[i] == seen;
    SameNumberSameToken(seen.token, claim.command.token);
  }

  lemma ClaimKeepsInv(l: Ledger, claim: Claim)
    requires FenceInv(l) && FenceEnabled(l, CompareAndSet(claim))
    ensures FenceInv(Claimed(l, claim))
  {
    if Outcome(l, claim).Written? {
      assert ClaimSound(l, claim);
      AppendIncreasing(l, claim.command);
    } else if Outcome(l, claim).Repeated? {
      RepeatedClaim(l, claim);
    }
  }

  lemma AppendIncreasing(l: Ledger, c: Command)
    requires Increasing(l.history) && FenceIsLast(l) && ValidToken(c.token) && FenceToken(l.fence) < Number(c.token)
    ensures Increasing(l.history + [c])
  {
    forall i | 0 <= i < |l.history|
      ensures Number(l.history[i].token) < Number(c.token)
    {
      LastIsGreatest(l, l.history[i]);
    }
  }

  lemma FenceStepKeepsInv(l: Ledger, step: FenceStep)
    requires FenceInv(l) && FenceEnabled(l, step)
    ensures FenceInv(FenceNext(l, step))
    ensures step.RecordReceipt? ==> FenceNext(l, step).fence == l.fence
  {
    match step
    case Read(_, _, _, _) =>
    case CompareAndSet(claim) => ClaimKeepsInv(l, claim);
    case RecordReceipt(grant) => OneCommandPerToken(l.history, grant.command, l.fence.value.command);
  }

  ghost predicate IsPrefix(a: seq<Command>, b: seq<Command>) {
    |a| <= |b| && b[..|a|] == a
  }

  ghost predicate SameOwner(f: Fence, g: Fence) {
    f.tenant == g.tenant && f.instance == g.instance
  }

  /** Commands are only added behind the ones before, and the owner stays. */
  ghost predicate Extends(l: Ledger, m: Ledger) {
    && IsPrefix(l.history, m.history)
    && (l.fence.Some? ==> m.fence.Some? && SameOwner(l.fence.value, m.fence.value))
  }

  lemma FenceStepExtends(l: Ledger, step: FenceStep)
    requires FenceInv(l) && FenceEnabled(l, step)
    ensures Extends(l, FenceNext(l, step))
  {
    if step.CompareAndSet? {
      assert ClaimSound(l, step.claim);
    }
  }

  lemma ExtendsTransitive(a: Ledger, b: Ledger, c: Ledger)
    requires Extends(a, b) && Extends(b, c)
    ensures Extends(a, c)
  {
  }

  lemma CommandStays(l: Ledger, m: Ledger, c: Command)
    requires Extends(l, m) && c in l.history
    ensures c in m.history
  {
    var i :| 0 <= i < |l.history| && l.history[i] == c;
    assert m.history[i] == m.history[..|l.history|][i] == c;
  }

  // ----- runs

  /** The fence after the steps, if each was enabled in turn. */
  function FenceAfter(l: Ledger, steps: seq<FenceStep>): Option<Ledger>
    decreases |steps|
  {
    if steps == [] then Some(l)
    else if FenceEnabled(l, steps[0]) then FenceAfter(FenceNext(l, steps[0]), steps[1..])
    else None
  }

  lemma {:induction false} FenceRun(l: Ledger, steps: seq<FenceStep>)
    requires FenceInv(l) && FenceAfter(l, steps).Some?
    ensures FenceInv(FenceAfter(l, steps).value)
    ensures Extends(l, FenceAfter(l, steps).value)
    decreases |steps|
  {
    if steps != [] {
      var m := FenceNext(l, steps[0]);
      FenceStepKeepsInv(l, steps[0]);
      FenceStepExtends(l, steps[0]);
      FenceRun(m, steps[1..]);
      ExtendsTransitive(l, m, FenceAfter(l, steps).value);
    }
  }

  /** Every later fence has a larger token, or the same command. */
  lemma FenceMonotone(l: Ledger, m: Ledger)
    requires FenceInv(l) && FenceInv(m) && Extends(l, m) && l.fence.Some?
    ensures m.fence.Some? && SameOwner(l.fence.value, m.fence.value)
    ensures m.fence.value.command == l.fence.value.command || FenceToken(m.fence) > FenceToken(l.fence)
  {
    var i := |l.history| - 1;
    assert m.history[i] == m.history[..|l.history|][i] == l.history[i];
  }

  lemma FenceRunMonotone(l: Ledger, steps: seq<FenceStep>)
    requires FenceInv(l) && FenceAfter(l, steps).Some? && l.fence.Some?
    ensures var m := FenceAfter(l, steps).value;
            && m.fence.Some? && SameOwner(l.fence.value, m.fence.value)
            && (m.fence.value.command == l.fence.value.command || FenceToken(m.fence) > FenceToken(l.fence))
  {
    FenceRun(l, steps);
    FenceMonotone(l, FenceAfter(l, steps).value);
  }

  /** Controllers that were granted equal tokens, at any distance, were granted the same
      command. */
  lemma GrantsAgree(steps: seq<FenceStep>, a: Grant, b: Grant)
    requires FenceAfter(NO_FENCE, steps).Some?
    requires a in FenceAfter(NO_FENCE, steps).value.granted
    requires b in FenceAfter(NO_FENCE, steps).value.granted
    requires Number(a.command.token) == Number(b.command.token)
    ensures a.command == b.command
  {
    FenceRun(NO_FENCE, steps);
    OneCommandPerToken(FenceAfter(NO_FENCE, steps).value.history, a.command, b.command);
  }

  /** The fence changes exactly with a claim of a larger token, by the owner if there is one, that
      read the fence as it still is; it is then the claim's. */
  lemma ClaimWritesExactly(l: Ledger, claim: Claim)
    requires FenceInv(l) && FenceEnabled(l, CompareAndSet(claim))
    ensures var m := FenceNext(l, CompareAndSet(claim));
            var writes := && claim.version == l.version
                          && (claim.seen.Some? ==>
                                && claim.seen.value.tenant == claim.tenant
                                && claim.seen.value.instance == claim.instance
                                && AllDigits(claim.seen.value.command.token)
                                && Value(claim.seen.value.command.token) < Value(claim.command.token));
            && m.fence == (if writes then Some(Fence(claim.tenant, claim.instance, claim.command, claim.holder))
                           else l.fence)
            && m.history == (if writes then l.history + [claim.command] else l.history)
  {
    assert ClaimSound(l, claim);
    PositiveValue(claim.command.token);
  }

  // ----- the holder

  /** The six values that the deployment notes want to agree before a token is used again. */
  predicate SameCommandAndHolder(fence: Option<Fence>, c: Command, holder: string) {
    fence.Some? && fence.value.command == c && fence.value.holder == holder
  }

  /** A claim with the token of the fence it read is granted exactly to a controller of the
      owning tenant and instance for the fence's command, whoever holds it. */
  lemma RepeatGrantedExactly(l: Ledger, claim: Claim)
    requires FenceInv(l) && FenceEnabled(l, CompareAndSet(claim))
    requires Number(claim.command.token) == FenceToken(claim.seen)
    ensures claim.seen.Some?
    ensures Granted(l, claim)
       <==> && claim.seen.value.tenant == claim.tenant && claim.seen.value.instance == claim.instance
            && claim.seen.value.command == claim.command
  {
    PositiveValue(claim.command.token);
    assert ClaimSound(l, claim);
    if Granted(l, claim) {
      RepeatedClaim(l, claim);
    }
  }

  /** The rule of six values is met exactly for another command, and for the recorded command
      when the claim is the recorded holder's just if it is the owner's. */
  lemma HolderRuleMetExactly(l: Ledger, claim: Claim)
    requires FenceInv(l) && FenceEnabled(l, CompareAndSet(claim))
    requires Number(claim.command.token) == FenceToken(claim.seen)
    ensures claim.seen.Some?
    ensures (Granted(l, claim) <==> SameCommandAndHolder(claim.seen, claim.command, claim.holder))
       <==> || claim.command != claim.seen.value.command
            || (claim.holder == claim.seen.value.holder
                <==> claim.tenant == claim.seen.value.tenant && claim.instance == claim.seen.value.instance)
  {
    RepeatGrantedExactly(l, claim);
  }

  /** The rule fails in reachable states: for any command and any two holders there is a run in
      which both are granted the command while the fence names the first. */
  lemma TwoHoldersAreGranted(tenant: string, instance: string, c: Command, first: string, second: string)
    returns (steps: seq<FenceStep>)
    requires ValidToken(c.token)
    ensures FenceAfter(NO_FENCE, steps).Some?
    ensures var l := FenceAfter(NO_FENCE, steps).value;
            && Grant(c, first) in l.granted && Grant(c, second) in l.granted
            && l.fence == Some(Fence(tenant, instance, c, first))
  {
    PositiveValue(c.token);
    var a := Read(tenant, instance, c, first);
    var b := CompareAndSet(Claim(tenant, instance, c, first, None, 0));
    var l := FenceNext(FenceNext(NO_FENCE, a), b);
    var d := Read(tenant, instance, c, second);
    var e := CompareAndSet(Claim(tenant, instance, c, second, l.fence, l.version));
    var m := FenceNext(FenceNext(l, d), e);
    steps := [a, b, d, e];
    assert steps[1..] == [b, d, e] && [b, d, e][1..] == [d, e] && [d, e][1..] == [e] && [e][1..] == [];
    assert FenceAfter(m, []) == Some(m);
    assert FenceAfter(FenceNext(l, d), [e]) == Some(m);
    assert FenceAfter(l, [d, e]) == Some(m);
    assert FenceAfter(FenceNext(NO_FENCE, a), [b, d, e]) == Some(m);
  }

  // ----- the fence under the admission policy

  /** The fence's ConfigMap as the policy sees it. */
  function FenceObject(f: Fence): Obj {
    Obj(Some(map[MANAGED_BY := "molit-caas", TENANT_ID := f.tenant, INSTANCE_ID := f.instance]),
        Some(map[FENCING_TOKEN := f.command.token, OPERATION_KEY := f.command.operationKey,
                 GENERATION := f.command.generation, INTENT_DIGEST := f.command.intentDigest,
                 DESIRED_STATE := f.command.desiredState]))
  }

  function FenceObjectOf(l: Ledger): Option<Obj> {
    if l.fence.Some? then Some(FenceObject(l.fence.value)) else None
  }

  /** The fence lives under the admission policy itself, and no step of the protocol is ever
      refused by it: every fence that is written is admitted over the one before. */
  lemma FenceWritesAreAdmitted(l: Ledger, step: FenceStep)
    requires FenceInv(l) && FenceEnabled(l, step) && FenceNext(l, step).version > l.version
    ensures FenceNext(l, step).fence.Some?
    ensures Admits(FenceObject(FenceNext(l, step).fence.value), FenceObjectOf(l))
  {
    var m := FenceNext(l, step);
    FenceStepKeepsInv(l, step);
    if step.CompareAndSet? {
      assert ClaimSound(l, step.claim);
    }
    if l.fence.None? {
      FirstWriteMeaning(FenceObject(m.fence.value), None);
    } else {
      ManagedUpdateMeaning(FenceObject(m.fence.value), FenceObject(l.fence.value));
    }
  }
}
