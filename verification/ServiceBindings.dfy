/** internal/dnshttpspath/service.go: which service bindings are usable, and the targets they give. */
module ServiceBindings {
  import opened Basics
  import opened DnsEvidence
  import opened ServiceCodec

  const PARAM_MANDATORY: Uint16 := 0
  const PARAM_ALPN: Uint16 := 1
  const PARAM_NO_DEFAULT_ALPN: Uint16 := 2
  const PARAM_PORT: Uint16 := 3
  const PARAM_IPV4_HINT: Uint16 := 4
  const PARAM_IPV6_HINT: Uint16 := 6
  const HTTPS_DEFAULT_PORT: Uint16 := 443

  /** "http/1.1" */
  const HTTP_1_1: seq<Byte> := [104, 116, 116, 112, 47, 49, 46, 49]

  datatype BindingReason = BindingUsable | BindingMalformedParameters | BindingUnsupportedParameters

  datatype BindingReference = BindingReference(recordIndex: nat, record: Record)

  datatype BindingDecision = BindingDecision(
    recordIndex: nat,
    priority: Uint16,
    addressHostname: string,
    usable: bool,
    reason: BindingReason,
    keys: seq<int>)

  // ---------- The compatibility rule (sections 7 and 8 of RFC 9460) ----------

  /** The last decodable value of every key. */
  function Values(params: seq<ServiceParameter>): map<Uint16, seq<Byte>> {
    if params == [] then map[]
    else
      var earlier, p := Values(params[..|params| - 1]), params[|params| - 1];
      if p.value.Some? then earlier[p.key := p.value.value] else earlier
  }

  /** The parameter's own value breaks the format its key requires. */
  ghost predicate Misformed(p: ServiceParameter) {
    p.value.None? ||
    var v := p.value.value;
    if p.key == PARAM_MANDATORY then forall list: seq<Uint16> :: !IsKeyList(v, list)
    else if p.key == PARAM_ALPN then forall list: seq<seq<Byte>> :: !IsIdList(v, list)
    else if p.key == PARAM_NO_DEFAULT_ALPN then v != []
    else if p.key == PARAM_PORT then |v| != 2
    else if p.key == PARAM_IPV4_HINT then v == [] || |v| % 4 != 0
    else if p.key == PARAM_IPV6_HINT then v == [] || |v| % 16 != 0
    else false
  }

  ghost predicate HasMisformed(params: seq<ServiceParameter>, key: int) {
    exists p :: p in params && p.key == key && Misformed(p)
  }

  /** The mandatory list is well formed and names `key`. */
  ghost predicate NamesMandatory(values: map<Uint16, seq<Byte>>, key: int) {
    PARAM_MANDATORY in values &&
    exists list: seq<Uint16> :: IsKeyList(values[PARAM_MANDATORY], list) && key in list
  }

  ghost predicate MalformedKey(params: seq<ServiceParameter>, key: int) {
    var values := Values(params);
    || HasMisformed(params, key)
    || (key == PARAM_NO_DEFAULT_ALPN && PARAM_NO_DEFAULT_ALPN in values && PARAM_ALPN !in values)
    || (NamesMandatory(values, key) && (key == PARAM_MANDATORY || key !in values.Keys))
  }

  predicate SupportedMandatory(key: int) {
    key == PARAM_ALPN || key == PARAM_NO_DEFAULT_ALPN || key == PARAM_PORT
  }

  ghost predicate OffersHttp11(value: seq<Byte>) {
    exists list: seq<seq<Byte>> :: IsIdList(value, list) && HTTP_1_1 in list
  }

  ghost predicate OtherPort(value: seq<Byte>) {
    |value| == 2 && BigEndian(value[0], value[1]) != HTTPS_DEFAULT_PORT
  }

  ghost predicate UnsupportedKey(params: seq<ServiceParameter>, key: int) {
    var values := Values(params);
    || (NamesMandatory(values, key) && !SupportedMandatory(key))
    || (key == PARAM_PORT && PARAM_PORT in values && OtherPort(values[PARAM_PORT]))
    || ((key == PARAM_ALPN || key == PARAM_NO_DEFAULT_ALPN) && PARAM_NO_DEFAULT_ALPN in values
        && PARAM_ALPN in values && !OffersHttp11(values[PARAM_ALPN]))
  }

  /** `keys` is the strictly ascending list of exactly the offending keys. */
  ghost predicate Lists(keys: seq<int>, offends: int -> bool) {
    Ascending(keys) && forall k :: k in keys <==> offends(k)
  }

  /** The declarative decision for one ServiceMode record. */
  ghost predicate DecidesBinding(reference: BindingReference, binding: ServiceBinding, d: BindingDecision) {
    var params := binding.params;
    && d.recordIndex == reference.recordIndex && d.priority == binding.priority
    && d.addressHostname == (if binding.target == "." then reference.record.name else binding.target)
    && if exists k :: MalformedKey(params, k) then
         && !d.usable && d.reason == BindingMalformedParameters
         && Lists(d.keys, k => MalformedKey(params, k))
       else if exists k :: UnsupportedKey(params, k) then
         && !d.usable && d.reason == BindingUnsupportedParameters
         && Lists(d.keys, k => UnsupportedKey(params, k))
       else d.usable && d.reason == BindingUsable && d.keys == []
  }

  lemma {:induction false} AscendingIsUnique(a: seq<int>, b: seq<int>)
    requires Ascending(a) && Ascending(b) && forall k :: k in a <==> k in b
    ensures a == b
  {
    assert a != [] ==> a[0] in a;
    assert b != [] ==> b[0] in b;
    if a != [] && b != [] {
      var m, n := |a| - 1, |b| - 1;
      assert a[m] in b && b[n] in a;
      assert a[m] == b[n];
      forall k ensures k in a[..m] <==> k in b[..n] {
        assert k in a[..m] <==> k in a && k != a[m];
        assert k in b[..n] <==> k in b && k != b[n];
      }
      AscendingIsUnique(a[..m], b[..n]);
      assert a == a[..m] + [a[m]] && b == b[..n] + [b[n]];
    }
  }

  /** The declarative rule leaves no choice. */
  lemma DecisionIsUnique(reference: BindingReference, binding: ServiceBinding, a: BindingDecision, b: BindingDecision)
    requires DecidesBinding(reference, binding, a) && DecidesBinding(reference, binding, b)
    ensures a == b
  {
    AscendingIsUnique(a.keys, b.keys);
  }

  /** A binding is unusable exactly when its offender list is not empty. */
  lemma UnusableMeansOffenders(reference: BindingReference, binding: ServiceBinding, d: BindingDecision)
    requires DecidesBinding(reference, binding, d)
    ensures !d.usable <==> d.keys != []
    ensures d.usable <==> d.reason == BindingUsable
  {
    if k :| MalformedKey(binding.params, k) {
      assert k in d.keys;
    } else if k :| UnsupportedKey(binding.params, k) {
      assert k in d.keys;
    }
  }

  // ---------- evaluateBinding ----------

  method ParameterIsMisformed(p: ServiceParameter) returns (bad: bool)
    ensures bad <==> Misformed(p)
  {
    if p.value.None? { return true; }
    var v := p.value.value;
    if p.key == PARAM_MANDATORY {
      var _, ok := MandatoryKeys(v);
      return !ok;
    } else if p.key == PARAM_ALPN {
      var _, ok := AlpnIds(v);
      return !ok;
    } else if p.key == PARAM_NO_DEFAULT_ALPN {
      return |v| != 0;
    } else if p.key == PARAM_PORT {
      return |v| != 2;
    } else if p.key == PARAM_IPV4_HINT {
      return |v| == 0 || |v| % 4 != 0;
    } else if p.key == PARAM_IPV6_HINT {
      return |v| == 0 || |v| % 16 != 0;
    }
    return false;
  }

  /** The first pass: each parameter on its own, and the value map. */
  method ReadParameters(params: seq<ServiceParameter>) returns (values: map<Uint16, seq<Byte>>, malformed: seq<int>)
    ensures values == Values(params)
    ensures forall k :: k in malformed <==> HasMisformed(params, k)
  {
    values, malformed := map[], [];
    for i := 0 to |params|
      invariant values == Values(params[..i])
      invariant forall k :: k in malformed <==> HasMisformed(params[..i], k)
    {
      var p := params[i];
      assert params[..i + 1] == params[..i] + [p] && params[..i + 1][..i] == params[..i];
      var bad := ParameterIsMisformed(p);
      if p.value.Some? { values := values[p.key := p.value.value]; }
      forall k ensures HasMisformed(params[..i + 1], k) <==> HasMisformed(params[..i], k) || (k == p.key && bad) {
        if q :| q in params[..i] && q.key == k && Misformed(q) { assert q in params[..i + 1]; }
        if k == p.key && bad { assert p in params[..i + 1]; }
      }
      if bad { malformed := malformed + [p.key]; }
    }
    assert params[..|params|] == params;
  }

  /** The second pass: parameters that need one another. */
  method AddMissing(values: map<Uint16, seq<Byte>>, found: seq<int>) returns (malformed: seq<int>)
    ensures forall k :: k in malformed <==>
      || k in found
      || (k == PARAM_NO_DEFAULT_ALPN && PARAM_NO_DEFAULT_ALPN in values && PARAM_ALPN !in values)
      || (NamesMandatory(values, k) && (k == PARAM_MANDATORY || k !in values.Keys))
  {
    malformed := found;
    if PARAM_NO_DEFAULT_ALPN in values && PARAM_ALPN !in values {
      malformed := malformed + [PARAM_NO_DEFAULT_ALPN];
    }
    ghost var before := malformed;
    if PARAM_MANDATORY in values {
      var keys, valid := MandatoryKeys(values[PARAM_MANDATORY]);
      if valid {
        for i := 0 to |keys|
          invariant forall k :: k in malformed <==>
            k in before || (k in keys[..i] && (k == PARAM_MANDATORY || k !in values.Keys))
        {
          assert keys[..i + 1] == keys[..i] + [keys[i]];
          if keys[i] == PARAM_MANDATORY || keys[i] !in values {
            malformed := malformed + [keys[i]];
          }
        }
        assert keys[..|keys|] == keys;
      }
      forall k ensures NamesMandatory(values, k) <==> valid && k in keys {
        NamedKeysAreListed(values, keys, valid, k);
      }
    }
  }

  lemma NamedKeysAreListed(values: map<Uint16, seq<Byte>>, keys: seq<Uint16>, valid: bool, k: int)
    requires PARAM_MANDATORY in values
    requires valid ==> IsKeyList(values[PARAM_MANDATORY], keys)
    requires !valid ==> forall list: seq<Uint16> :: !IsKeyList(values[PARAM_MANDATORY], list)
    ensures NamesMandatory(values, k) <==> valid && k in keys
  {
    if list: seq<Uint16> :| IsKeyList(values[PARAM_MANDATORY], list) && k in list {
      KeyListIsUnique(values[PARAM_MANDATORY], list, keys);
    }
  }

  /** Every value in the map came from some parameter. */
  lemma {:induction false} ValuesComeFromParams(params: seq<ServiceParameter>, key: Uint16)
    requires key in Values(params)
    ensures exists p :: p in params && p.key == key && p.value == Some(Values(params)[key])
  {
    var front, last := params[..|params| - 1], params[|params| - 1];
    if last.value.Some? && last.key == key {
      assert last in params;
    } else {
      ValuesComeFromParams(front, key);
    }
  }

  /** The third pass: well-formed requirements this client cannot meet. No value is read
      beyond the length its key guarantees. */
  method FindUnsupported(params: seq<ServiceParameter>, values: map<Uint16, seq<Byte>>) returns (unsupported: seq<int>)
    requires values == Values(params) && forall k :: !MalformedKey(params, k)
    ensures forall k :: k in unsupported <==> UnsupportedKey(params, k)
  {
    unsupported := [];
    if PARAM_MANDATORY in values {
      var keys, valid := MandatoryKeys(values[PARAM_MANDATORY]);
      for i := 0 to |keys|
        invariant forall k :: k in unsupported <==> k in keys[..i] && !SupportedMandatory(k)
      {
        assert keys[..i + 1] == keys[..i] + [keys[i]];
        if !SupportedMandatory(keys[i]) { unsupported := unsupported + [keys[i]]; }
      }
      assert keys[..|keys|] == keys;
      WellFormed(params, PARAM_MANDATORY);
      forall k ensures NamesMandatory(values, k) <==> k in keys {
        NamedKeysAreListed(values, keys, valid, k);
      }
    }
    ghost var mandatory := unsupported;
    assert forall k :: k in mandatory <==> NamesMandatory(values, k) && !SupportedMandatory(k);
    if PARAM_PORT in values {
      WellFormed(params, PARAM_PORT);
      var port := values[PARAM_PORT];
      if BigEndian(port[0], port[1]) != HTTPS_DEFAULT_PORT {
        unsupported := unsupported + [PARAM_PORT];
      }
    }
    if PARAM_NO_DEFAULT_ALPN in values {
      assert !MalformedKey(params, PARAM_NO_DEFAULT_ALPN);
      WellFormed(params, PARAM_ALPN);
      var ids, ok := AlpnIds(values[PARAM_ALPN]);
      IdListDecodes(values[PARAM_ALPN]);
      var offered := ContainsAlpn(ids, HTTP_1_1);
      assert offered <==> OffersHttp11(values[PARAM_ALPN]);
      if !offered { unsupported := unsupported + [PARAM_ALPN, PARAM_NO_DEFAULT_ALPN]; }
    }
  }

  lemma WellFormed(params: seq<ServiceParameter>, key: Uint16)
    requires key in Values(params) && forall k :: !MalformedKey(params, k)
    ensures !Misformed(ServiceParameter(key, Some(Values(params)[key])))
  {
    ValuesComeFromParams(params, key);
    var p :| p in params && p.key == key && p.value == Some(Values(params)[key]);
    assert p == ServiceParameter(key, Some(Values(params)[key]));
    assert !MalformedKey(params, key);
  }

  method ContainsAlpn(ids: seq<seq<Byte>>, wanted: seq<Byte>) returns (found: bool)
    ensures found <==> wanted in ids
  {
    for i := 0 to |ids|
      invariant wanted !in ids[..i]
    {
      if ids[i] == wanted { return true; }
    }
    found := false;
  }

  /** The normalised key list of the offenders found by a pass. */
  method Normalized(found: seq<int>) returns (keys: seq<int>)
    ensures Ascending(keys) && forall k :: k in keys <==> k in found
  {
    var buffer := new int[|found|](i requires 0 <= i < |found| => found[i]);
    assert buffer[..] == found;
    var kept := NormalizedKeys(buffer);
    keys := buffer[..kept];
  }

  method EvaluateBinding(reference: BindingReference, binding: ServiceBinding) returns (d: BindingDecision)
    ensures DecidesBinding(reference, binding, d)
  {
    var hostname := if binding.target == "." then reference.record.name else binding.target;
    d := BindingDecision(reference.recordIndex, binding.priority, hostname, true, BindingUsable, []);
    var values, misformed := ReadParameters(binding.params);
    var malformed := AddMissing(values, misformed);
    assert forall k :: k in malformed <==> MalformedKey(binding.params, k);
    if |malformed| > 0 {
      assert MalformedKey(binding.params, malformed[0]);
      var keys := Normalized(malformed);
      return d.(usable := false, reason := BindingMalformedParameters, keys := keys);
    }
    var unsupported := FindUnsupported(binding.params, values);
    if |unsupported| > 0 {
      assert UnsupportedKey(binding.params, unsupported[0]);
      var keys := Normalized(unsupported);
      return d.(usable := false, reason := BindingUnsupportedParameters, keys := keys);
    }
  }

  // ---------- Unknown parameters are ignored ----------

  predicate KnownKey(key: int) {
    || key == PARAM_MANDATORY || key == PARAM_ALPN || key == PARAM_NO_DEFAULT_ALPN
    || key == PARAM_PORT || key == PARAM_IPV4_HINT || key == PARAM_IPV6_HINT
  }

  lemma {:induction false} ValuesWithExtra(
    before: seq<ServiceParameter>, extra: ServiceParameter, after: seq<ServiceParameter>)
    ensures forall k :: k != extra.key ==>
      (k in Values(before + [extra] + after) <==> k in Values(before + after))
    ensures forall k :: k != extra.key && k in Values(before + after) ==>
      Values(before + [extra] + after)[k] == Values(before + after)[k]
  {
    var with, without := before + [extra] + after, before + after;
    if after == [] {
      assert with[..|with| - 1] == before == without;
    } else {
      var front := after[..|after| - 1];
      assert with[..|with| - 1] == before + [extra] + front;
      assert without[..|without| - 1] == before + front;
      ValuesWithExtra(before, extra, front);
    }
  }

  /** Section 8 of RFC 9460: a parameter this client does not know, and that the mandatory list
      does not name, changes nothing wherever it stands. */
  lemma UnknownParameterIsIgnored(
    reference: BindingReference, binding: ServiceBinding, at: nat, extra: ServiceParameter, d: BindingDecision)
    requires at <= |binding.params| && extra.value.Some? && !KnownKey(extra.key)
    requires !NamesMandatory(Values(binding.params), extra.key)
    ensures var params := binding.params[..at] + [extra] + binding.params[at..];
      DecidesBinding(reference, binding.(params := params), d) <==> DecidesBinding(reference, binding, d)
  {
    var before, after := binding.params[..at], binding.params[at..];
    var params := before + [extra] + after;
    assert before + after == binding.params;
    ValuesWithExtra(before, extra, after);
    forall k ensures MalformedKey(params, k) <==> MalformedKey(binding.params, k) {
      assert HasMisformed(params, k) <==> HasMisformed(binding.params, k) by {
        assert forall p :: p in params <==> p in binding.params || p == extra;
      }
      assert NamesMandatory(Values(params), k) <==> NamesMandatory(Values(binding.params), k);
    }
    forall k ensures UnsupportedKey(params, k) <==> UnsupportedKey(binding.params, k) {
      assert NamesMandatory(Values(params), k) <==> NamesMandatory(Values(binding.params), k);
    }
  }
}
