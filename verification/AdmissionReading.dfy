/** Admission by the webhook and in the cluster read off labels and annotations. */
module AdmissionReading {
  import opened Wrappers
  import opened Decimal
  import opened FencingPolicy
  import opened CentralFence
  import opened FencedCluster

  /** The keys by their text. */
  lemma KeyTexts()
    ensures MANAGED_BY == "app.kubernetes.io/managed-by"
    ensures TENANT_ID == "caas.data.molit.go.kr/" + "tenant-id"
    ensures INSTANCE_ID == "caas.data.molit.go.kr/" + "instance-id"
    ensures FENCING_TOKEN == "caas.data.molit.go.kr/" + "fencing-token"
    ensures OPERATION_KEY == "caas.data.molit.go.kr/" + "operation-key"
    ensures GENERATION == "caas.data.molit.go.kr/" + "generation"
    ensures INTENT_DIGEST == "caas.data.molit.go.kr/" + "intent-digest"
    ensures DESIRED_STATE == "caas.data.molit.go.kr/" + "desired-state"
    ensures CONTROL_NAMESPACE == "molit-caas-system" && FENCE_PREFIX == "tenant-fence-"
  {
  }

  predicate HasLabel(o: Obj, key: string, value: string) {
    o.labels.Some? && key in o.labels.value && o.labels.value[key] == value
  }

  predicate Annotates(o: Obj, key: string, value: string) {
    o.annotations.Some? && key in o.annotations.value && o.annotations.value[key] == value
  }

  predicate IsName(s: string) {
    3 <= |s| <= 63 && s[0] in LETTERS && forall i | 1 <= i < |s| :: s[i] in LETTERS_AND_DIGITS
  }

  /** A positive number without leading zeros. */
  ghost predicate IsNumeral(s: string) {
    exists n :: n > 0 && s == ToDigits(n)
  }

  lemma NumeralsByValue(s: string)
    ensures IsPositiveDecimal(s) <==> IsNumeral(s)
  {
    if IsPositiveDecimal(s) {
      PositiveValue(s);
      ToDigitsOfValue(s);
    }
    if n :| n > 0 && s == ToDigits(n) {
      ValueOfToDigits(n);
    }
  }

  /** The object names the fence's owner and carries each field of its command under the field's own
      key. */
  ghost predicate CarriesFence(o: Obj, f: Fence) {
    && HasLabel(o, TENANT_ID, f.tenant) && HasLabel(o, INSTANCE_ID, f.instance)
    && Annotates(o, FENCING_TOKEN, f.command.token) && Annotates(o, OPERATION_KEY, f.command.operationKey)
    && Annotates(o, GENERATION, f.command.generation) && Annotates(o, INTENT_DIGEST, f.command.intentDigest)
    && Annotates(o, DESIRED_STATE, f.command.desiredState)
  }

  /** A fence that the webhook can accept at all. */
  ghost predicate IsUsable(f: Fence) {
    IsName(f.tenant) && f.instance != "" && IsNumeral(f.command.token)
  }

  const LETTERS := "abcdefghijklmnopqrstuvwxyz"
  const LETTERS_AND_DIGITS := "abcdefghijklmnopqrstuvwxyz0123456789-"

  lemma LettersByText(c: char)
    ensures c in LETTERS <==> 'a' <= c <= 'z'
  {
    assert forall k | 0 <= k < 26 :: LETTERS[k] as int == 97 + k;
    if 'a' <= c <= 'z' {
      assert LETTERS[c as int - 97] == c;
    }
  }

  lemma DigitsByText(c: char)
    ensures c in LETTERS_AND_DIGITS <==> 'a' <= c <= 'z' || '0' <= c <= '9' || c == '-'
  {
    assert forall k | 0 <= k < 26 :: LETTERS_AND_DIGITS[k] as int == 97 + k;
    assert forall k | 26 <= k < 36 :: LETTERS_AND_DIGITS[k] as int == 22 + k;
    assert LETTERS_AND_DIGITS[36] == '-';
    if 'a' <= c <= 'z' {
      assert LETTERS_AND_DIGITS[c as int - 97] == c;
    } else if '0' <= c <= '9' {
      assert LETTERS_AND_DIGITS[c as int - 22] == c;
    }
  }

  lemma NamesByText(s: string)
    ensures IsTenantId(s) <==> IsName(s)
  {
    if s != "" {
      LettersByText(s[0]);
    }
    forall i | 0 <= i < |s|
      ensures s[i] in LETTERS_AND_DIGITS <==> 'a' <= s[i] <= 'z' || '0' <= s[i] <= '9' || s[i] == '-'
    {
      DigitsByText(s[i]);
    }
  }

  /** The webhook lets a managed object through exactly if the fence it read is usable and the object
      carries that fence. */
  lemma AllowedExactly(o: Obj, f: Fence)
    requires HasLabel(o, MANAGED_BY, "molit-caas")
    ensures WebhookAllows(o, Some(f)) <==> IsUsable(f) && CarriesFence(o, f)
    ensures !WebhookAllows(o, None)
  {
    NamesByText(f.tenant);
    NumeralsByValue(f.command.token);
  }

  /** An object without the managed label is not examined. */
  lemma UnmanagedIsAllowed(o: Obj, fence: Option<Fence>)
    requires !HasLabel(o, MANAGED_BY, "molit-caas")
    ensures WebhookAllows(o, fence)
  {
  }

  lemma KeysDiffer()
    ensures MANAGED_BY != TENANT_ID && MANAGED_BY != INSTANCE_ID && TENANT_ID != INSTANCE_ID
    ensures FENCING_TOKEN != OPERATION_KEY && FENCING_TOKEN != GENERATION && FENCING_TOKEN != INTENT_DIGEST
    ensures FENCING_TOKEN != DESIRED_STATE && OPERATION_KEY != GENERATION && OPERATION_KEY != INTENT_DIGEST
    ensures OPERATION_KEY != DESIRED_STATE && GENERATION != INTENT_DIGEST && GENERATION != DESIRED_STATE
    ensures INTENT_DIGEST != DESIRED_STATE
  {
    assert MANAGED_BY[0] == 'a' && TENANT_ID[0] == 'c' && INSTANCE_ID[0] == 'c';
    assert TENANT_ID[22] == 't' && INSTANCE_ID[22] == 'i';
    assert FENCING_TOKEN[22] == 'f' && OPERATION_KEY[22] == 'o' && GENERATION[22] == 'g';
    assert INTENT_DIGEST[22] == 'i' && DESIRED_STATE[22] == 'd';
  }

  lemma FenceObjectCarries(f: Fence)
    ensures HasLabel(FenceObject(f), MANAGED_BY, "molit-caas") && CarriesFence(FenceObject(f), f)
  {
    KeysDiffer();
  }

  /** The fence's own ConfigMap carries the fence: so an ordinary write is let through. */
  lemma OwnFenceIsAllowed(f: Fence)
    requires IsUsable(f)
    ensures HasLabel(FenceObject(f), MANAGED_BY, "molit-caas") && CarriesFence(FenceObject(f), f)
    ensures WebhookAllows(FenceObject(f), Some(f))
  {
    FenceObjectCarries(f);
    AllowedExactly(FenceObject(f), f);
  }

  // ----- in the cluster

  /** The webhook is not asked about a write of the object. */
  ghost predicate NotAsked(s: State, id: Id) {
    id.namespace == "molit-caas-system" || (id in s.objects && s.objects[id].terminating)
  }

  /** Under the name that the webhook reads for it, a usable fence is kept that the object carries. */
  ghost predicate CarriesCurrent(s: State, o: Obj) {
    exists name, f: Fence ::
      && name == "tenant-fence-" + f.tenant && name in s.ledgers && s.ledgers[name].fence == Some(f)
      && IsUsable(f) && CarriesFence(o, f)
  }

  lemma CurrentIsAllowed(s: State, o: Obj)
    requires HasLabel(o, MANAGED_BY, "molit-caas")
    ensures WebhookAllows(o, FenceFor(s, o)) <==> CarriesCurrent(s, o)
  {
    if FenceFor(s, o).Some? {
      AllowedExactly(o, FenceFor(s, o).value);
    }
    if name, f: Fence :|
        && name == "tenant-fence-" + f.tenant && name in s.ledgers && s.ledgers[name].fence == Some(f)
        && IsUsable(f) && CarriesFence(o, f) {
      assert TenantOf(o) == f.tenant;
      assert FenceFor(s, o) == Some(f);
    }
  }

  /** A write of a managed object is admitted exactly if the policy admits it over what is stored and,
      unless the webhook is not asked, the object carries its tenant's current fence. */
  lemma AdmissionExactly(s: State, id: Id, o: Obj)
    requires HasLabel(o, MANAGED_BY, "molit-caas")
    ensures Enabled(s, Admit(id, o))
       <==> && (NotAsked(s, id) || CarriesCurrent(s, o))
            && Admits(o, if id in s.objects then Some(s.objects[id].obj) else None)
  {
    CurrentIsAllowed(s, o);
  }

  /** A deletion of a managed object is admitted exactly if the object exists and, where the webhook is
      asked about deletions, carries its tenant's current fence. */
  lemma DeletionExactly(s: State, id: Id)
    requires id in s.objects && HasLabel(s.objects[id].obj, MANAGED_BY, "molit-caas")
    ensures Enabled(s, AdmitDeletion(id))
       <==> || (id.kind != Namespaces && id.kind != Jobs) || id.namespace == "molit-caas-system"
            || CarriesCurrent(s, s.objects[id].obj)
  {
    CurrentIsAllowed(s, s.objects[id].obj);
  }
}
