/** internal/dnshttpspath/service.go: the two service-parameter decoders and the in-place key list. */
module ServiceCodec {
  import opened Basics
  import opened DnsEvidence

  predicate Ascending(keys: seq<int>) {
    forall i, j :: 0 <= i < j < |keys| ==> keys[i] < keys[j]
  }

  // ---------- The mandatory list (section 8 of RFC 9460) ----------

  function EncodeKeys(keys: seq<Uint16>): seq<Byte> {
    if keys == [] then []
    else
      var k := keys[|keys| - 1];
      EncodeKeys(keys[..|keys| - 1]) + [k / 0x100, k % 0x100]
  }

  /** `value` is the wire form of the non-empty, strictly ascending list `keys`. */
  predicate IsKeyList(value: seq<Byte>, keys: seq<Uint16>) {
    keys != [] && Ascending(keys) && EncodeKeys(keys) == value
  }

  function BigEndian(high: Byte, low: Byte): Uint16 { 0x100 * high + low }

  lemma {:induction false} EncodedKeyAt(keys: seq<Uint16>, i: nat)
    requires i < |keys|
    ensures |EncodeKeys(keys)| == 2 * |keys|
    ensures keys[i] == BigEndian(EncodeKeys(keys)[2 * i], EncodeKeys(keys)[2 * i + 1])
  {
    var last := |keys| - 1;
    if last == 0 {
      assert keys[..last] == [];
    } else {
      EncodedKeyAt(keys[..last], if i < last then i else 0);
    }
  }

  /** A value encodes at most one list. */
  lemma KeyListIsUnique(value: seq<Byte>, a: seq<Uint16>, b: seq<Uint16>)
    requires IsKeyList(value, a) && IsKeyList(value, b)
    ensures a == b
  {
    EncodedKeyAt(a, 0);
    EncodedKeyAt(b, 0);
    forall i | 0 <= i < |a| ensures a[i] == b[i] {
      EncodedKeyAt(a, i);
      EncodedKeyAt(b, i);
    }
  }

  lemma BadLengthIsNoKeyList(value: seq<Byte>, list: seq<Uint16>)
    requires |value| == 0 || |value| % 2 != 0
    ensures !IsKeyList(value, list)
  {
    if list != [] {
      EncodedKeyAt(list, 0);
    }
  }

  lemma DescentIsNoKeyList(value: seq<Byte>, i: nat, list: seq<Uint16>)
    requires 0 < i && 2 * i + 1 < |value|
    requires BigEndian(value[2 * i], value[2 * i + 1]) <= BigEndian(value[2 * i - 2], value[2 * i - 1])
    ensures !IsKeyList(value, list)
  {
    if list != [] && EncodeKeys(list) == value {
      EncodedKeyAt(list, 0);
      EncodedKeyAt(list, i);
      EncodedKeyAt(list, i - 1);
      assert !(list[i - 1] < list[i]);
    }
  }

  method MandatoryKeys(value: seq<Byte>) returns (keys: seq<Uint16>, ok: bool)
    ensures ok ==> IsKeyList(value, keys)
    ensures !ok ==> forall list: seq<Uint16> :: !IsKeyList(value, list)
  {
    keys := [];
    if |value| == 0 || |value| % 2 != 0 {
      forall list: seq<Uint16> { BadLengthIsNoKeyList(value, list); }
      return keys, false;
    }
    var offset := 0;
    while offset < |value|
      invariant 0 <= offset <= |value| && offset == 2 * |keys|
      invariant EncodeKeys(keys) == value[..offset] && Ascending(keys)
      invariant |keys| > 0 ==> keys[|keys| - 1] == BigEndian(value[offset - 2], value[offset - 1])
    {
      var key := BigEndian(value[offset], value[offset + 1]);
      if |keys| > 0 && key <= keys[|keys| - 1] {
        forall list: seq<Uint16> { DescentIsNoKeyList(value, |keys|, list); }
        return keys, false;
      }
      AppendKey(keys, value[..offset], value[offset], value[offset + 1]);
      assert value[..offset + 2] == value[..offset] + [value[offset], value[offset + 1]];
      keys := keys + [key];
      offset := offset + 2;
    }
    assert value[..offset] == value;
    ok := true;
  }

  lemma BigEndianSplits(high: Byte, low: Byte)
    ensures BigEndian(high, low) / 0x100 == high && BigEndian(high, low) % 0x100 == low
  {
  }

  lemma AppendKey(keys: seq<Uint16>, front: seq<Byte>, high: Byte, low: Byte)
    requires EncodeKeys(keys) == front
    ensures EncodeKeys(keys + [BigEndian(high, low)]) == front + [high, low]
  {
    BigEndianSplits(high, low);
    assert (keys + [BigEndian(high, low)])[..|keys|] == keys;
  }

  // ---------- The ALPN list (section 7.1.1 of RFC 9460) ----------

  function EncodeIds(ids: seq<seq<Byte>>): seq<Byte>
    requires forall id :: id in ids ==> |id| <= 255
  {
    if ids == [] then [] else [|ids[0]|] + ids[0] + EncodeIds(ids[1..])
  }

  predicate ValidIds(ids: seq<seq<Byte>>) {
    forall id :: id in ids ==> 1 <= |id| <= 255
  }

  /** `value` is the wire form of the non-empty list `ids` of identifiers of 1 to 255 bytes. */
  predicate IsIdList(value: seq<Byte>, ids: seq<seq<Byte>>) {
    ids != [] && ValidIds(ids) && EncodeIds(ids) == value
  }

  function DecodeIds(value: seq<Byte>): Option<seq<seq<Byte>>> {
    if value == [] then Some([])
    else
      var length := value[0];
      if length == 0 || 1 + length > |value| then None
      else
        match DecodeIds(value[1 + length..])
        case None => None
        case Some(rest) => Some([value[1..1 + length]] + rest)
  }

  lemma {:induction false} DecodeInvertsEncode(ids: seq<seq<Byte>>)
    requires ValidIds(ids)
    ensures DecodeIds(EncodeIds(ids)) == Some(ids)
  {
    if ids != [] {
      var value := EncodeIds(ids);
      assert value[1..1 + |ids[0]|] == ids[0];
      assert value[1 + |ids[0]|..] == EncodeIds(ids[1..]);
      DecodeInvertsEncode(ids[1..]);
      assert [ids[0]] + ids[1..] == ids;
    }
  }

  lemma EncodeCons(id: seq<Byte>, rest: seq<seq<Byte>>)
    requires 1 <= |id| <= 255 && ValidIds(rest)
    ensures ValidIds([id] + rest) && EncodeIds([id] + rest) == [|id|] + id + EncodeIds(rest)
  {
    assert ([id] + rest)[1..] == rest;
  }

  lemma Apart(value: seq<Byte>, n: nat)
    requires 1 <= n <= |value|
    ensures [value[0]] + value[1..n] + value[n..] == value
  {
  }

  /** A value that decodes begins with an identifier, and the rest decodes. */
  lemma DecodeSplits(value: seq<Byte>)
    requires value != [] && DecodeIds(value).Some?
    ensures 1 <= value[0] < |value|
    ensures var id, rest := value[1..1 + value[0]], DecodeIds(value[1 + value[0]..]);
      rest.Some? && DecodeIds(value).value == [id] + rest.value
  {
  }

  lemma {:induction false} EncodeInvertsDecode(value: seq<Byte>)
    requires DecodeIds(value).Some?
    ensures ValidIds(DecodeIds(value).value) && EncodeIds(DecodeIds(value).value) == value
    ensures DecodeIds(value).value == [] <==> value == []
  {
    if value == [] {
    } else {
      DecodeSplits(value);
      var id, tail := value[1..1 + value[0]], value[1 + value[0]..];
      EncodeInvertsDecode(tail);
      EncodeCons(id, DecodeIds(tail).value);
      Apart(value, 1 + |id|);
    }
  }

  /** A value is an identifier list exactly when it decodes, and then to that one list. */
  lemma IdListDecodes(value: seq<Byte>)
    ensures value != [] && DecodeIds(value).Some? ==> IsIdList(value, DecodeIds(value).value)
    ensures forall ids: seq<seq<Byte>> :: IsIdList(value, ids) ==>
      value != [] && DecodeIds(value).Some? && DecodeIds(value).value == ids
  {
    forall ids: seq<seq<Byte>> | IsIdList(value, ids)
      ensures value != [] && DecodeIds(value).Some? && DecodeIds(value).value == ids
    {
      DecodeInvertsEncode(ids);
    }
    if value != [] && DecodeIds(value).Some? {
      EncodeInvertsDecode(value);
      assert |DecodeIds(value).value| > 0;
    }
  }

  /** One turn of the decoding loop: an identifier is split off the front. */
  lemma SplitId(value: seq<Byte>, offset: nat)
    requires offset < |value|
    ensures var length := value[offset];
      DecodeIds(value[offset..]) ==
        if length == 0 || offset + 1 + length > |value| then None
        else match DecodeIds(value[offset + 1 + length..])
          case None => None
          case Some(rest) => Some([value[offset + 1..offset + 1 + length]] + rest)
  {
    var length, tail := value[offset], value[offset..];
    if length != 0 && offset + 1 + length <= |value| {
      assert tail[1 + length..] == value[offset + 1 + length..];
      assert tail[1..1 + length] == value[offset + 1..offset + 1 + length];
    }
  }

  method AlpnIds(value: seq<Byte>) returns (ids: seq<seq<Byte>>, ok: bool)
    ensures ok ==> IsIdList(value, ids)
    ensures !ok ==> forall list: seq<seq<Byte>> :: !IsIdList(value, list)
  {
    ids, ok := SplitIds(value);
    IdListDecodes(value);
  }

  method SplitIds(value: seq<Byte>) returns (ids: seq<seq<Byte>>, ok: bool)
    ensures ok ==> value != [] && DecodeIds(value).Some? && DecodeIds(value).value == ids
    ensures !ok ==> value == [] || DecodeIds(value).None?
  {
    ids := [];
    if |value| == 0 { return ids, false; }
    var offset := 0;
    assert value[0..] == value;
    while offset < |value|
      invariant 0 <= offset <= |value|
      invariant DecodeIds(value).Some? <==> DecodeIds(value[offset..]).Some?
      invariant DecodeIds(value).Some? ==> DecodeIds(value).value == ids + DecodeIds(value[offset..]).value
    {
      SplitId(value, offset);
      var length := value[offset];
      offset := offset + 1;
      if length == 0 || offset + length > |value| { return ids, false; }
      ids := ids + [value[offset..offset + length]];
      offset := offset + length;
    }
    assert value[offset..] == [];
    ok := true;
  }

  // ---------- normalizedKeys ----------

  /** `sort.Slice` on the backing array. */
  method SortKeys(keys: array<int>)
    modifies keys
    ensures forall i, j :: 0 <= i < j < keys.Length ==> keys[i] <= keys[j]
    ensures forall k :: k in keys[..] <==> k in old(keys[..])
  {
    for n := 0 to keys.Length
      invariant forall i, j :: 0 <= i < j < n ==> keys[i] <= keys[j]
      invariant forall k :: k in keys[..] <==> k in old(keys[..])
    {
      var at := n;
      while at > 0 && keys[at - 1] > keys[at]
        invariant 0 <= at <= n
        invariant forall i, j :: 0 <= i < j <= n && j != at ==> keys[i] <= keys[j]
        invariant forall k :: k in keys[..] <==> k in old(keys[..])
      {
        Swap(keys, at - 1, at);
        at := at - 1;
      }
    }
  }

  method Swap(keys: array<int>, i: nat, j: nat)
    requires i < j < keys.Length
    modifies keys
    ensures keys[..] == old(keys[..])[i := old(keys[j])][j := old(keys[i])]
    ensures forall k :: k in keys[..] <==> k in old(keys[..])
  {
    ghost var was := keys[..];
    keys[i], keys[j] := keys[j], keys[i];
    forall k | k in was ensures k in keys[..] {
      var at :| 0 <= at < |was| && was[at] == k;
      assert keys[..][if at == i then j else if at == j then i else at] == k;
    }
  }

  /** Sorts, then compacts into the front of the same array while still reading from it:
      what remains is the strictly ascending list of the same keys. */
  method NormalizedKeys(keys: array<int>) returns (kept: nat)
    modifies keys
    ensures kept <= keys.Length && Ascending(keys[..kept])
    ensures forall k :: k in keys[..kept] <==> k in old(keys[..])
  {
    SortKeys(keys);
    ghost var sorted := keys[..];
    kept := 0;
    for i := 0 to keys.Length
      invariant kept <= i
      invariant keys[i..] == sorted[i..]
      invariant Ascending(keys[..kept])
      invariant forall k :: k in keys[..kept] <==> k in sorted[..i]
      invariant kept > 0 ==> i > 0 && keys[kept - 1] == sorted[i - 1]
      invariant kept == 0 ==> i == 0
    {
      var key := keys[i];
      assert key == sorted[i];
      assert sorted[..i + 1] == sorted[..i] + [key];
      if kept == 0 || keys[kept - 1] != key {
        ghost var before := keys[..kept];
        keys[kept] := key;
        kept := kept + 1;
        assert keys[..kept] == before + [key];
        assert forall k :: k in before ==> k < key by {
          forall m | 0 <= m < |before| ensures before[m] < key { }
        }
      }
    }
    assert sorted[..keys.Length] == sorted;
  }
}
