/** The fencing admission policy: three CEL validations as the guard of every write to a
    managed object, and the runs that the guard allows. */
module FencingPolicy {
  import opened Wrappers
  import opened Decimal

  // ----- CEL values: an expression yields a value or an error

  datatype Cel<+V> = Val(value: V) | Error

  /** CEL's `||`: a true operand decides, whichever side it is on, even beside an error. */
  function Or(a: Cel<bool>, b: Cel<bool>): Cel<bool> {
    if a == Val(true) || b == Val(true) then Val(true)
    else if a.Error? || b.Error? then Error
    else Val(false)
  }

  function And(a: Cel<bool>, b: Cel<bool>): Cel<bool> {
    if a == Val(false) || b == Val(false) then Val(false)
    else if a.Error? || b.Error? then Error
    else Val(true)
  }

  function Not(a: Cel<bool>): Cel<bool> {
    if a.Error? then Error else Val(!a.value)
  }

  function Equal(a: Cel<string>, b: Cel<string>): Cel<bool> {
    if a.Error? || b.Error? then Error else Val(a.value == b.value)
  }

  function AtLeast(a: Cel<int>, b: Cel<int>): Cel<bool> {
    if a.Error? || b.Error? then Error else Val(a.value >= b.value)
  }

  function Above(a: Cel<int>, b: Cel<int>): Cel<bool> {
    if a.Error? || b.Error? then Error else Val(a.value > b.value)
  }

  const MAX_INT64 := 9_223_372_036_854_775_807
  const MIN_INT64 := -9_223_372_036_854_775_808

  /** CEL's `int(string)`: an optional sign, decimal digits, and a 64-bit range. */
  function CelInt(text: Cel<string>): Cel<int> {
    if text.Error? then Error
    else
      var s := text.value;
      var digits := if |s| > 0 && (s[0] == '-' || s[0] == '+') then s[1..] else s;
      if digits == "" || !AllDigits(digits) then Error
      else
        var n: int := if s[0] == '-' then 0 - Value(digits) else Value(digits);
        if MIN_INT64 <= n <= MAX_INT64 then Val(n) else Error
  }

  /** The decimal numeral of `n`, with an optional sign and leading zeros. */
  ghost predicate IsIntText(s: string, n: int) {
    exists digits :: digits != "" && AllDigits(digits)
      && (|| (n == Value(digits) && (s == digits || s == "+" + digits))
          || (n == -(Value(digits) as int) && s == "-" + digits))
  }

  /** A text is read as `n` exactly if it is a numeral of `n`, and `n` fits 64 bits; as an error if it
      is a numeral of no such number. */
  lemma CelIntExactly(s: string, n: int)
    ensures CelInt(Val(s)) == Val(n)
       <==> IsIntText(s, n) && -9_223_372_036_854_775_808 <= n <= 9_223_372_036_854_775_807
    ensures CelInt(Error) == Error
  {
    var digits := if |s| > 0 && (s[0] == '-' || s[0] == '+') then s[1..] else s;
    if |s| > 0 && (s[0] == '-' || s[0] == '+') {
      assert s == [s[0]] + digits;
    }
    if ds :| ds != "" && AllDigits(ds)
             && ((n == Value(ds) && (s == ds || s == "+" + ds)) || (n == -(Value(ds) as int) && s == "-" + ds)) {
      assert s == ds ==> IsDigit(s[0]);
      assert s == "+" + ds ==> s[1..] == ds;
      assert s == "-" + ds ==> s[1..] == ds;
      assert digits == ds;
    }
  }

  // ----- objects and the policy's expressions

  datatype Obj = Obj(labels: Option<map<string, string>>, annotations: Option<map<string, string>>)

  const MANAGED_BY := "app.kubernetes.io/managed-by"
  const FENCING_TOKEN := "caas.data.molit.go.kr/fencing-token"
  const OPERATION_KEY := "caas.data.molit.go.kr/operation-key"
  const GENERATION := "caas.data.molit.go.kr/generation"
  const INTENT_DIGEST := "caas.data.molit.go.kr/intent-digest"
  const DESIRED_STATE := "caas.data.molit.go.kr/desired-state"

  /** `has(object.metadata.annotations)`; selecting from a null object is an error. */
  function Has(field: Cel<Option<map<string, string>>>): Cel<bool> {
    if field.Error? then Error else Val(field.value.Some?)
  }

  function In(key: string, field: Cel<Option<map<string, string>>>): Cel<bool> {
    if field.Error? || field.value.None? then Error else Val(key in field.value.value)
  }

  function Lookup(field: Cel<Option<map<string, string>>>, key: string): Cel<string> {
    if field.Error? || field.value.None? || key !in field.value.value then Error else Val(field.value.value[key])
  }

  function Annotations(o: Option<Obj>): Cel<Option<map<string, string>>> {
    if o.None? then Error else Val(o.value.annotations)
  }

  /** `managed-by-molit-caas`. */
  function MatchCondition(obj: Obj): Cel<bool> {
    var labels := Val(obj.labels);
    And(Has(labels), And(In(MANAGED_BY, labels), Equal(Lookup(labels, MANAGED_BY), Val("molit-caas"))))
  }

  /** A managed object carries a positive token. */
  function TokenPresent(obj: Obj): Cel<bool> {
    var annotations := Val(obj.annotations);
    var token := Lookup(annotations, FENCING_TOKEN);
    And(Has(annotations), And(In(FENCING_TOKEN, annotations),
      if token.Error? then Error else Val(IsPositiveDecimal(token.value))))
  }

  /** The guards shared by the two comparisons: nothing to compare with. */
  function NoOldToken(prior: Option<Obj>): Cel<bool> {
    Or(Val(prior.None?), Or(Not(Has(Annotations(prior))), Not(In(FENCING_TOKEN, Annotations(prior)))))
  }

  function TokenOf(o: Cel<Option<map<string, string>>>): Cel<int> {
    CelInt(Lookup(o, FENCING_TOKEN))
  }

  /** The token cannot decrease. */
  function TokenKept(obj: Obj, prior: Option<Obj>): Cel<bool> {
    Or(NoOldToken(prior), AtLeast(TokenOf(Val(obj.annotations)), TokenOf(Annotations(prior))))
  }

  function SameField(obj: Obj, prior: Option<Obj>, key: string): Cel<bool> {
    Equal(Lookup(Val(obj.annotations), key), Lookup(Annotations(prior), key))
  }

  /** A token is reused for the same command only. */
  function TokenReused(obj: Obj, prior: Option<Obj>): Cel<bool> {
    Or(NoOldToken(prior), Or(Above(TokenOf(Val(obj.annotations)), TokenOf(Annotations(prior))),
      And(SameField(obj, prior, OPERATION_KEY), And(SameField(obj, prior, GENERATION),
        And(SameField(obj, prior, INTENT_DIGEST), SameField(obj, prior, DESIRED_STATE))))))
  }

  /** Admission under `failurePolicy: Fail`: an object outside the match condition is not
      examined; otherwise every validation must yield true, and an error rejects. */
  predicate Admits(obj: Obj, prior: Option<Obj>) {
    var matched := MatchCondition(obj);
    if matched == Val(false) then true
    else matched == Val(true) && TokenPresent(obj) == Val(true)
         && TokenKept(obj, prior) == Val(true) && TokenReused(obj, prior) == Val(true)
  }

  // ----- what admission means

  predicate Managed(o: Obj) {
    o.labels.Some? && MANAGED_BY in o.labels.value && o.labels.value[MANAGED_BY] == "molit-caas"
  }

  predicate Annotated(o: Obj, key: string) {
    o.annotations.Some? && key in o.annotations.value
  }

  function Annotation(o: Obj, key: string): string
    requires Annotated(o, key)
  {
    o.annotations.value[key]
  }

  predicate HasToken(o: Obj) {
    Annotated(o, FENCING_TOKEN) && IsPositiveDecimal(Annotation(o, FENCING_TOKEN))
  }

  function Token(o: Obj): nat
    requires HasToken(o)
  {
    Value(Annotation(o, FENCING_TOKEN))
  }

  const COMMAND_KEYS := {OPERATION_KEY, GENERATION, INTENT_DIGEST, DESIRED_STATE}

  ghost predicate HasCommand(o: Obj) {
    forall key | key in COMMAND_KEYS :: Annotated(o, key)
  }

  /** Both objects carry the same complete command. */
  ghost predicate SameCommand(a: Obj, b: Obj) {
    HasCommand(a) && HasCommand(b) && forall key | key in COMMAND_KEYS :: Annotation(a, key) == Annotation(b, key)
  }

  /** A write with nothing to compare with, a create or an update of an object without a
      token, is admitted exactly with a positive token, however large. */
  lemma FirstWriteMeaning(obj: Obj, prior: Option<Obj>)
    requires Managed(obj) && (prior.None? || !Annotated(prior.value, FENCING_TOKEN))
    ensures Admits(obj, prior) <==> HasToken(obj)
  {
  }

  /** An update of an object that carries a token is admitted exactly when both tokens are
      64-bit numbers and the new one is larger, or equal with the same complete command. */
  lemma UpdateMeaning(obj: Obj, prior: Obj)
    requires Managed(obj) && Annotated(prior, FENCING_TOKEN)
    ensures Admits(obj, Some(prior))
       <==> HasToken(obj) && Token(obj) <= MAX_INT64 && CelInt(Val(Annotation(prior, FENCING_TOKEN))).Val?
            && (|| Token(obj) > CelInt(Val(Annotation(prior, FENCING_TOKEN))).value
                || (Token(obj) == CelInt(Val(Annotation(prior, FENCING_TOKEN))).value && SameCommand(obj, prior)))
  {
  }

  /** The same between two writes that this policy admitted. */
  lemma ManagedUpdateMeaning(obj: Obj, prior: Obj)
    requires Managed(obj) && HasToken(prior)
    ensures Admits(obj, Some(prior))
       <==> HasToken(obj) && Token(obj) <= MAX_INT64 && Token(prior) <= MAX_INT64
            && (Token(obj) > Token(prior) || (Token(obj) == Token(prior) && SameCommand(obj, prior)))
  {
  }

  // ----- runs of writes to one object

  /** What a controller, however delayed, may attempt: write the object or delete it. */
  datatype Attempt = Write(obj: Obj) | Delete

  /** The writes admitted since the object was created, oldest first; the last one is stored. */
  type Log = seq<Obj>

  function Stored(log: Log): Option<Obj> {
    if log == [] then None else Some(log[|log| - 1])
  }

  function Attempted(log: Log, attempt: Attempt): Log {
    match attempt
    case Write(obj) => if Admits(obj, Stored(log)) then log + [obj] else log
    case Delete => []
  }

  function Run(log: Log, attempts: seq<Attempt>): Log
    decreases |attempts|
  {
    if attempts == [] then log else Run(Attempted(log, attempts[0]), attempts[1..])
  }

  ghost predicate AllManaged(attempts: seq<Attempt>) {
    forall a | a in attempts && a.Write? :: Managed(a.obj)
  }

  ghost predicate Follows(log: Log, i: nat)
    requires i < |log|
  {
    Managed(log[i]) && HasToken(log[i]) && Admits(log[i], Stored(log[..i]))
  }

  /** Each logged write was managed and admitted over the one before it. */
  ghost predicate Lifetime(log: Log) {
    forall i: nat | i < |log| :: Follows(log, i)
  }

  lemma AttemptKeepsLifetime(log: Log, attempt: Attempt)
    requires Lifetime(log) && (attempt.Write? ==> Managed(attempt.obj))
    ensures Lifetime(Attempted(log, attempt))
  {
    if attempt.Write? && Admits(attempt.obj, Stored(log)) {
      var longer := log + [attempt.obj];
      forall i: nat | i < |longer|
        ensures Follows(longer, i)
      {
        assert longer[..i] == log[..i];
        if i < |log| {
          assert Follows(log, i);
        } else {
          assert log[..i] == log;
          assert TokenPresent(attempt.obj) == Val(true);
        }
      }
    }
  }

  lemma {:induction false} RunKeepsLifetime(log: Log, attempts: seq<Attempt>)
    requires Lifetime(log) && AllManaged(attempts)
    ensures Lifetime(Run(log, attempts))
    decreases |attempts|
  {
    if attempts != [] {
      assert attempts[0] in attempts;
      AttemptKeepsLifetime(log, attempts[0]);
      RunKeepsLifetime(Attempted(log, attempts[0]), attempts[1..]);
    }
  }

  /** Later, or the very same command again. */
  ghost predicate Supersedes(later: Obj, earlier: Obj)
    requires HasToken(later) && HasToken(earlier)
  {
    Token(later) > Token(earlier) || (Token(later) == Token(earlier) && SameCommand(later, earlier))
  }

  lemma SupersedesTransitive(a: Obj, b: Obj, c: Obj)
    requires HasToken(a) && HasToken(b) && HasToken(c) && Supersedes(b, a) && Supersedes(c, b)
    ensures Supersedes(c, a)
  {
  }

  ghost predicate Fenced(log: Log, j: nat)
    requires j < |log|
  {
    HasToken(log[j]) && (j > 0 ==> HasToken(log[j - 1]) && Supersedes(log[j], log[j - 1]) && Token(log[j]) <= MAX_INT64)
  }

  lemma LifetimeIsFenced(log: Log, j: nat)
    requires Lifetime(log) && j < |log|
    ensures Fenced(log, j)
  {
    assert Follows(log, j);
    if j > 0 {
      assert Stored(log[..j]) == Some(log[j - 1]);
      assert Follows(log, j - 1);
      ManagedUpdateMeaning(log[j], log[j - 1]);
    }
  }

  lemma {:induction false} LogOrdered(log: Log, i: nat, j: nat)
    requires i < j < |log| && forall k: nat | k < |log| :: Fenced(log, k)
    ensures HasToken(log[i]) && HasToken(log[j]) && Supersedes(log[j], log[i])
    ensures Token(log[j]) <= MAX_INT64
    decreases j
  {
    assert Fenced(log, i) && Fenced(log, j) && Fenced(log, j - 1);
    if i < j - 1 {
      LogOrdered(log, i, j - 1);
      SupersedesTransitive(log[i], log[j - 1], log[j]);
    }
  }

  lemma LifetimeOrdered(log: Log)
    requires Lifetime(log)
    ensures forall k: nat | k < |log| :: Fenced(log, k)
  {
    forall k: nat | k < |log|
      ensures Fenced(log, k)
    {
      LifetimeIsFenced(log, k);
    }
  }

  /** In every run of managed writes, at any distance: tokens never decrease, and writes
      with equal tokens carry the same complete command. */
  lemma RunsAreFenced(attempts: seq<Attempt>)
    requires AllManaged(attempts)
    ensures var log := Run([], attempts);
            && (forall i | 0 <= i < |log| :: HasToken(log[i]))
            && (forall i, j | 0 <= i < j < |log| ::
                  && Token(log[i]) <= Token(log[j])
                  && (Token(log[i]) == Token(log[j]) ==> SameCommand(log[j], log[i])))
  {
    var log := Run([], attempts);
    RunKeepsLifetime([], attempts);
    LifetimeOrdered(log);
    forall i | 0 <= i < |log|
      ensures HasToken(log[i])
    {
      assert Fenced(log, i);
    }
    forall i, j | 0 <= i < j < |log|
      ensures Supersedes(log[j], log[i])
    {
      LogOrdered(log, i, j);
    }
  }

  lemma LogRejects(log: Log, i: nat, delayed: Obj)
    requires Lifetime(log) && i < |log| && HasToken(log[i])
    requires Managed(delayed) && HasToken(delayed) && !Supersedes(delayed, log[i])
    ensures !Admits(delayed, Stored(log))
  {
    var last := |log| - 1;
    LifetimeOrdered(log);
    assert Fenced(log, last);
    if i < last {
      LogOrdered(log, i, last);
      if Supersedes(delayed, log[last]) {
        SupersedesTransitive(log[i], log[last], delayed);
      }
    }
    ManagedUpdateMeaning(delayed, log[last]);
  }

  /** Once a token was stored, a delayed write with a smaller one is rejected for the rest of
      the object's lifetime, and so is another command under any token stored so far. */
  lemma DelayedWriteRejected(attempts: seq<Attempt>, i: nat, delayed: Obj)
    requires AllManaged(attempts) && i < |Run([], attempts)|
    requires HasToken(Run([], attempts)[i]) && Managed(delayed) && HasToken(delayed)
    requires !Supersedes(delayed, Run([], attempts)[i])
    ensures !Admits(delayed, Stored(Run([], attempts)))
  {
    RunKeepsLifetime([], attempts);
    LogRejects(Run([], attempts), i, delayed);
  }

  // ----- where the guarantee and the policy end

  function WithToken(token: nat): Obj {
    Obj(Some(map[MANAGED_BY := "molit-caas"]), Some(map[FENCING_TOKEN := ToDigits(token)]))
  }

  lemma WithTokenCarries(token: nat)
    requires token > 0
    ensures Managed(WithToken(token)) && HasToken(WithToken(token)) && Token(WithToken(token)) == token
  {
    ValueOfToDigits(token);
  }

  /** Some managed write can still follow the stored token. */
  ghost predicate Updatable(prior: Obj) {
    exists obj :: Managed(obj) && Admits(obj, Some(prior))
  }

  /** That is so exactly when the token is below the 64-bit maximum, or at it with a complete
      command. */
  lemma UpdatableExactly(prior: Obj)
    requires HasToken(prior)
    ensures Updatable(prior) <==> Token(prior) < MAX_INT64 || (Token(prior) == MAX_INT64 && HasCommand(prior))
  {
    forall obj | Managed(obj) && Admits(obj, Some(prior))
      ensures Token(prior) < MAX_INT64 || (Token(prior) == MAX_INT64 && HasCommand(prior))
    {
      ManagedUpdateMeaning(obj, prior);
    }
    if Token(prior) < MAX_INT64 {
      var next := WithToken(Token(prior) + 1);
      WithTokenCarries(Token(prior) + 1);
      ManagedUpdateMeaning(next, prior);
    } else if Token(prior) == MAX_INT64 && HasCommand(prior) {
      var again := Obj(Some(map[MANAGED_BY := "molit-caas"]), prior.annotations);
      ManagedUpdateMeaning(again, prior);
    }
  }

  lemma {:induction false} NothingIsAdmitted(log: Log, attempts: seq<Attempt>)
    requires log != [] && !Updatable(log[|log| - 1]) && AllManaged(attempts) && Delete !in attempts
    ensures Run(log, attempts) == log
    decreases |attempts|
  {
    if attempts != [] {
      assert attempts[0] in attempts && attempts[0].Write?;
      NothingIsAdmitted(log, attempts[1..]);
    }
  }

  /** The stored object is frozen, so that no run of managed writes changes it until it is
      deleted, exactly when its token is above the 64-bit maximum, or at it with an
      incomplete command. */
  lemma FrozenExactly(log: Log)
    requires log != [] && HasToken(log[|log| - 1])
    ensures (forall attempts | AllManaged(attempts) && Delete !in attempts :: Run(log, attempts) == log)
       <==> var last := log[|log| - 1];
            Token(last) > MAX_INT64 || (Token(last) == MAX_INT64 && !HasCommand(last))
  {
    var last := log[|log| - 1];
    UpdatableExactly(last);
    if Updatable(last) {
      var attempts := UpdatesOnce(log);
      assert Run(log, attempts) != log;
    } else {
      forall attempts | AllManaged(attempts) && Delete !in attempts
        ensures Run(log, attempts) == log
      {
        NothingIsAdmitted(log, attempts);
      }
    }
  }

  lemma UpdatesOnce(log: Log) returns (attempts: seq<Attempt>)
    requires log != [] && Updatable(log[|log| - 1])
    ensures AllManaged(attempts) && Delete !in attempts && Run(log, attempts) != log
  {
    var obj :| Managed(obj) && Admits(obj, Some(log[|log| - 1]));
    OneAttempt(log, Write(obj));
    attempts := [Write(obj)];
    assert |Attempted(log, Write(obj))| == |log| + 1;
  }

  lemma OneAttempt(log: Log, attempt: Attempt)
    ensures Run(log, [attempt]) == Attempted(log, attempt)
  {
    assert [attempt][1..] == [];
    assert Run(log, [attempt]) == Run(Attempted(log, attempt), []);
  }

  /** Every token above the 64-bit maximum passes the pattern on create and freezes the object
      that it creates. */
  lemma OversizedTokenFreezes(token: nat, attempts: seq<Attempt>)
    requires token > MAX_INT64 && AllManaged(attempts) && Delete !in attempts
    ensures Admits(WithToken(token), None)
    ensures Run([], [Write(WithToken(token))] + attempts) == [WithToken(token)]
  {
    WithTokenCarries(token);
    FirstWriteMeaning(WithToken(token), None);
    var log := [WithToken(token)];
    assert ([Write(WithToken(token))] + attempts)[1..] == attempts;
    assert Attempted([], Write(WithToken(token))) == log;
    UpdatableExactly(log[0]);
    NothingIsAdmitted(log, attempts);
  }

  /** A deletion ends all that came before: what was written or frozen plays no part afterwards, and any
      token is possible again. */
  lemma {:induction false} DeletionForgets(log: Log, before: seq<Attempt>, after: seq<Attempt>, obj: Obj)
    ensures Run(log, before + [Delete] + after) == Run([], after)
    ensures Managed(obj) && HasToken(obj) ==> Run([], [Write(obj)]) == [obj]
    decreases |before|
  {
    var attempts := before + [Delete] + after;
    if before == [] {
      assert attempts[0] == Delete && attempts[1..] == after;
    } else {
      assert attempts[0] == before[0] && attempts[1..] == before[1..] + [Delete] + after;
      DeletionForgets(Attempted(log, before[0]), before[1..], after, obj);
    }
    if Managed(obj) && HasToken(obj) {
      FirstWriteMeaning(obj, None);
      OneAttempt([], Write(obj));
    }
  }

  /** Repeating a stored command is admitted exactly when its token fits 64 bits and the
      command is complete. */
  lemma RepeatAdmittedExactly(obj: Obj)
    requires Managed(obj) && HasToken(obj)
    ensures Admits(obj, Some(obj)) <==> Token(obj) <= MAX_INT64 && HasCommand(obj)
  {
  }

  /** A managed write with a token below `high`. */
  ghost predicate ManagedBelow(low: Obj, high: nat) {
    Managed(low) && HasToken(low) && Token(low) < high
  }

  /** The object leaves room for a token below `high`: it has no token, or one that reads as a
      64-bit number with a larger one below `high`, or with an equal one below `high` that can
      repeat its command. */
  ghost predicate LeavesRoom(bare: Obj, high: nat) {
    if !Annotated(bare, FENCING_TOKEN) then high > 1
    else
      var read := CelInt(Val(Annotation(bare, FENCING_TOKEN)));
      && read.Val?
      && (|| (LeastPositiveAbove(read.value) < high && read.value < MAX_INT64)
          || (1 <= read.value < high && HasCommand(bare)))
  }

  /** The least positive number above `n`. */
  function LeastPositiveAbove(n: int): nat {
    if n < 0 then 1 else n + 1
  }

  lemma RoomIsNeeded(bare: Obj, low: Obj, high: nat)
    requires ManagedBelow(low, high) && Admits(low, Some(bare))
    ensures LeavesRoom(bare, high)
  {
    PositiveValue(Annotation(low, FENCING_TOKEN));
    if Annotated(bare, FENCING_TOKEN) {
      UpdateMeaning(low, bare);
    }
  }

  lemma RoomIsEnough(bare: Obj, high: nat) returns (low: Obj)
    requires LeavesRoom(bare, high)
    ensures ManagedBelow(low, high) && Admits(low, Some(bare))
  {
    if !Annotated(bare, FENCING_TOKEN) {
      low := WithToken(1);
      WithTokenCarries(1);
      FirstWriteMeaning(low, Some(bare));
    } else {
      var n := CelInt(Val(Annotation(bare, FENCING_TOKEN))).value;
      if LeastPositiveAbove(n) < high && n < MAX_INT64 {
        low := WithToken(LeastPositiveAbove(n));
        WithTokenCarries(LeastPositiveAbove(n));
      } else {
        low := Obj(Some(map[MANAGED_BY := "molit-caas"]),
                   Some(bare.annotations.value[FENCING_TOKEN := ToDigits(n)]));
        ValueOfToDigits(n);
      }
      UpdateMeaning(low, bare);
    }
  }

  lemma TwoAttempts(log: Log, a: Obj, b: Obj)
    ensures Run(log, [Write(a), Write(b)]) == Attempted(Attempted(log, Write(a)), Write(b))
  {
    assert [Write(a), Write(b)][1..] == [Write(b)];
    OneAttempt(Attempted(log, Write(a)), Write(b));
  }

  lemma AfterUnlabelled(log: Log, bare: Obj, low: Obj)
    requires !Managed(bare)
    ensures Run(log, [Write(bare), Write(low)]) == log + [bare, low] <==> Admits(low, Some(bare))
  {
    TwoAttempts(log, bare, low);
    assert Attempted(log, Write(bare)) == log + [bare];
    assert log + [bare] + [low] == log + [bare, low];
  }

  /** The managed label is needed, and this is how much. A write without it is admitted whatever
      was stored; after it, in any lifetime, a managed write may carry a token below `high`
      exactly when the unlabelled object leaves room for one. */
  lemma UnlabelledWriteResetsExactly(log: Log, bare: Obj, high: nat)
    requires !Managed(bare)
    ensures (exists low :: ManagedBelow(low, high) && Run(log, [Write(bare), Write(low)]) == log + [bare, low])
       <==> LeavesRoom(bare, high)
  {
    forall low | ManagedBelow(low, high) && Run(log, [Write(bare), Write(low)]) == log + [bare, low]
      ensures LeavesRoom(bare, high)
    {
      AfterUnlabelled(log, bare, low);
      RoomIsNeeded(bare, low, high);
    }
    if LeavesRoom(bare, high) {
      var low := RoomIsEnough(bare, high);
      AfterUnlabelled(log, bare, low);
    }
  }

  /** A managed write that uses the token for another command than that of `first`. */
  ghost predicate ManagedOtherwise(other: Obj, token: nat, first: Obj) {
    Managed(other) && HasToken(other) && Token(other) == token && !SameCommand(other, first)
  }

  /** The object leaves the token to another command: it has no token, or one that reads as a
      smaller number, or it carries just this token with another complete command. */
  ghost predicate LeavesToken(bare: Obj, token: nat, first: Obj) {
    token > 0
    && (Annotated(bare, FENCING_TOKEN) ==>
          var read := CelInt(Val(Annotation(bare, FENCING_TOKEN)));
          && read.Val?
          && (|| (read.value < token && token <= MAX_INT64)
              || (read.value == token && HasCommand(bare) && !SameCommand(bare, first))))
  }

  lemma LeavingIsNeeded(bare: Obj, other: Obj, token: nat, first: Obj)
    requires ManagedOtherwise(other, token, first) && Admits(other, Some(bare))
    ensures LeavesToken(bare, token, first)
  {
    PositiveValue(Annotation(other, FENCING_TOKEN));
    if Annotated(bare, FENCING_TOKEN) {
      UpdateMeaning(other, bare);
    }
  }

  lemma LeavingIsEnough(bare: Obj, token: nat, first: Obj) returns (other: Obj)
    requires LeavesToken(bare, token, first)
    ensures ManagedOtherwise(other, token, first) && Admits(other, Some(bare))
  {
    WithTokenCarries(token);
    other := WithToken(token);
    assert OPERATION_KEY in COMMAND_KEYS && !Annotated(other, OPERATION_KEY);
    if !Annotated(bare, FENCING_TOKEN) {
      FirstWriteMeaning(other, Some(bare));
    } else {
      if CelInt(Val(Annotation(bare, FENCING_TOKEN))).value == token {
        other := Obj(Some(map[MANAGED_BY := "molit-caas"]),
                     Some(bare.annotations.value[FENCING_TOKEN := ToDigits(token)]));
        ValueOfToDigits(token);
      }
      UpdateMeaning(other, bare);
    }
  }

  /** The other half of the guarantee: after a write without the managed label, in any lifetime, a
      token that `first` carried may be used for another command exactly when the unlabelled
      object leaves it. */
  lemma UnlabelledWriteRebindsExactly(log: Log, bare: Obj, token: nat, first: Obj)
    requires !Managed(bare)
    ensures (exists other :: ManagedOtherwise(other, token, first)
               && Run(log, [Write(bare), Write(other)]) == log + [bare, other])
       <==> LeavesToken(bare, token, first)
  {
    forall other | ManagedOtherwise(other, token, first) && Run(log, [Write(bare), Write(other)]) == log + [bare, other]
      ensures LeavesToken(bare, token, first)
    {
      AfterUnlabelled(log, bare, other);
      LeavingIsNeeded(bare, other, token, first);
    }
    if LeavesToken(bare, token, first) {
      var other := LeavingIsEnough(bare, token, first);
      AfterUnlabelled(log, bare, other);
    }
  }

  /** In one run: a write without labels and annotations lets any smaller token follow. */
  lemma UnlabelledWriteResets(high: nat, low: nat)
    requires 0 < low < high
    ensures var bare := Obj(None, None);
            var log := Run([], [Write(WithToken(high)), Write(bare), Write(WithToken(low))]);
            log == [WithToken(high), bare, WithToken(low)]
  {
    var bare := Obj(None, None);
    WithTokenCarries(high);
    WithTokenCarries(low);
    FirstWriteMeaning(WithToken(high), None);
    FirstWriteMeaning(WithToken(low), Some(bare));
    assert [Write(WithToken(high)), Write(bare), Write(WithToken(low))][1..] == [Write(bare), Write(WithToken(low))];
    assert Attempted([], Write(WithToken(high))) == [WithToken(high)];
    AfterUnlabelled([WithToken(high)], bare, WithToken(low));
  }
}
