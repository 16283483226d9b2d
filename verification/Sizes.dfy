/** How long encodings can get, for the bodies that must fit in memory. */
module Sizes {
  import opened Wrappers
  import opened ByteOrder
  import opened Cbor
  import opened CborRules
  import opened Members
  import opened Credentials
  import opened GetAssertion
  import opened GetInfo
  import opened GetInfoFacts
  import opened ClientPin

  lemma {:induction false} OneMoreTime(n: nat, m: nat)
    requires n > 0
    ensures n * m == m + (n - 1) * m
  {
  }

  lemma {:induction false} ItemsSize(items: seq<Value>, m: nat)
    requires forall i :: 0 <= i < |items| ==> |Enc(items[i])| <= m
    ensures |EncItems(items)| <= |items| * m
  {
    if items != [] {
      ItemsSize(items[1..], m);
      OneMoreTime(|items|, m);
    }
  }

  lemma {:induction false} ArraySize(items: seq<Value>, m: nat)
    requires forall i :: 0 <= i < |items| ==> |Enc(items[i])| <= m
    ensures |Enc(Array(items))| <= 9 + |items| * m
  {
    ItemsSize(items, m);
  }

  ghost predicate Small(slot: Slot, m: nat) {
    slot.val.Some? ==> |Enc(slot.key)| + |Enc(slot.val.value)| <= m
  }

  lemma {:induction false} EntriesSize(slots: seq<Slot>, m: nat)
    requires forall i :: 0 <= i < |slots| ==> Small(slots[i], m)
    ensures |Flatten(EncEntries(Entries(slots)))| <= |slots| * m
  {
    if slots != [] {
      var rest := Entries(slots[1..]);
      EntriesSize(slots[1..], m);
      OneMoreTime(|slots|, m);
      assert Small(slots[0], m);
      if slots[0].val.None? {
        assert [] + rest == rest;
      } else {
        assert Entries(slots)[1..] == rest;
        assert EncEntries(Entries(slots))[1..] == EncEntries(rest);
      }
    }
  }

  lemma {:induction false} SlotsSize(slots: seq<Slot>, m: nat)
    requires forall i :: 0 <= i < |slots| ==> Small(slots[i], m)
    ensures |Enc(Map(Entries(slots)))| <= 9 + |slots| * m
  {
    EntriesSize(slots, m);
    SortedLength(EncEntries(Entries(slots)));
  }

  // ---- clientPIN responses

  lemma {:induction false} PinResponseSize(r: PinResponse)
    requires r.keyAgreement.Some? ==> |Enc(r.keyAgreement.value)| <= 1000
    requires r.pinUvAuthToken.Some? ==> |r.pinUvAuthToken.value| <= 900
    ensures |Enc(PinResponseTo(r))| < U64
  {
    var slots := PinResponseSlots(r);
    forall i | 0 <= i < |slots| ensures Small(slots[i], 1010) {
      SmallKey(slots[i].key.n);
    }
    SlotsSize(slots, 1010);
  }

  lemma {:induction false} CoseKeySize(x: seq<byte>, y: seq<byte>)
    requires |x| == 32 && |y| == 32
    ensures |Enc(CoseKey(x, y))| <= 1000
  {
    var slots := CoseSlots(x, y);
    forall i | 0 <= i < |slots| ensures Small(slots[i], 50) {
      SmallKey(slots[i].key.n);
    }
    SlotsSize(slots, 50);
  }

  // ---- clientPIN requests

  function SlotSize(slot: Slot): nat {
    if slot.val.Some? then |Enc(slot.key)| + |Enc(slot.val.value)| else 0
  }

  function SlotSizes(slots: seq<Slot>): nat {
    if slots == [] then 0 else SlotSize(slots[0]) + SlotSizes(slots[1..])
  }

  /** The members of a map take what they take one by one. */
  lemma {:induction false} EntriesTake(slots: seq<Slot>)
    ensures |Flatten(EncEntries(Entries(slots)))| == SlotSizes(slots)
  {
    if slots != [] {
      var rest := Entries(slots[1..]);
      EntriesTake(slots[1..]);
      if slots[0].val.None? {
        assert [] + rest == rest;
      } else {
        assert Entries(slots)[1..] == rest;
        assert EncEntries(Entries(slots))[1..] == EncEntries(rest);
      }
    }
  }

  lemma {:induction false} AllButLast(slots: seq<Slot>, m: nat)
    requires slots != [] && forall i :: 0 <= i < |slots| - 1 ==> SlotSize(slots[i]) <= m
    ensures SlotSizes(slots) <= (|slots| - 1) * m + SlotSize(slots[|slots| - 1])
  {
    if |slots| > 1 {
      AllButLast(slots[1..], m);
      OneMoreTime(|slots| - 1, m);
    }
  }

  /** Whatever the relying party is called, the request can be held in memory. */
  lemma {:induction false} PinRequestSize(r: PinRequest)
    requires r.protocol.ToU32() < U32 && (r.keyAgreement.Some? ==> |Enc(r.keyAgreement.value)| <= 1000)
    requires (r.pinUvAuthParam.Some? ==> |r.pinUvAuthParam.value| <= 900)
             && (r.pinHashEnc.Some? ==> |r.pinHashEnc.value| <= 900)
    requires (r.permissions.Some? ==> r.permissions.value < U32) && (r.rpId.Some? ==> |r.rpId.value| <= STRING_MAX)
    ensures |Enc(Map(Entries(PinRequestSlots(r))))| < U64
  {
    var slots := PinRequestSlots(r);
    forall i | 0 <= i < 6 ensures SlotSize(slots[i]) <= 1010 {
      SmallKey(slots[i].key.n);
    }
    SmallKey(10);
    assert SlotSize(slots[6]) <= 20 + STRING_MAX;
    AllButLast(slots, 1010);
    EntriesTake(slots);
    SortedLength(EncEntries(Entries(slots)));
  }

  // ---- getInfo responses

  const LARGE: nat := 10 * U32

  /** A response of short names, no numbers beyond its types, and lists below 2^32 elements. */
  ghost predicate Modest(i: Info) {
    && ModestNames(Some(i.versions)) && ModestNames(i.extensions) && ModestNames(i.transports) && |i.aaguid| < U32
    && (i.options.Some? ==> |i.options.value| < 100 && forall k :: k in i.options.value ==> |k| < 1000)
    && (i.protocols.Some? ==> |i.protocols.value| < U32)
    && i.algorithms.None? && i.certifications.None? && i.vendorCommands.None?
  }

  ghost predicate ModestNames(ts: Option<seq<Name>>) {
    ts.Some? ==> |ts.value| < 100 && forall i :: 0 <= i < |ts.value| ==> |ts.value[i]| < 1000
  }

  lemma {:induction false} TextsSize(ts: seq<Name>)
    requires ModestNames(Some(ts))
    ensures |Enc(Array(Texts(ts)))| <= 9 + 100 * 1009
  {
    ArraySize(Texts(ts), 1009);
    assert |ts| * 1009 <= 100 * 1009;
  }

  lemma {:induction false} OptionsSize(o: map<Name, bool>)
    requires |o| < 100 && forall k :: k in o ==> |k| < 1000
    ensures |Enc(Map(Entries(OptionSlots(o))))| <= 9 + 100 * 1010
  {
    var slots := OptionSlots(o);
    forall n | 0 <= n < |slots| ensures Small(slots[n], 1010) { OptionSlotAt(o, n); }
    SlotsSize(slots, 1010);
    assert |slots| * 1010 <= 100 * 1010;
  }

  lemma {:induction false} ProtocolsSize(ps: seq<Protocol>)
    requires |ps| < U32
    ensures |Enc(Array(Uints(ProtocolNumbers(ps))))| <= 9 + 9 * U32
  {
    ArraySize(Uints(ProtocolNumbers(ps)), 9);
  }

  lemma {:induction false} MemberSize(i: Info, k: nat)
    requires Modest(i) && 1 <= k <= 21 && MemberOf(i, k).Some?
    ensures |Enc(MemberOf(i, k).value)| <= LARGE - 1
  {
    if k == 1 { TextsSize(i.versions); }
    else if k == 2 { TextsSize(i.extensions.value); }
    else if k == 4 { OptionsSize(i.options.value); }
    else if k == 6 { ProtocolsSize(i.protocols.value); }
    else if k == 9 { TextsSize(i.transports.value); }
  }

  lemma {:induction false} InfoSize(i: Info)
    requires Modest(i)
    ensures |Enc(InfoTo(i))| < U64
  {
    var slots := InfoSlots(i);
    forall n | 0 <= n < 21 ensures Small(slots[n], LARGE) {
      SmallKey(KeyAt(n));
      if slots[n].val.Some? { MemberSize(i, KeyAt(n)); }
    }
    SlotsSize(slots, LARGE);
  }

  // ---- getAssertion responses

  lemma {:induction false} UserSize(u: User)
    requires |u.id| < U32 && u.name.None? && u.displayName.None?
    ensures |Enc(UserTo(u))| <= 9 + 3 * (U32 + 50)
  {
    var slots := UserSlots(u);
    forall n | 0 <= n < |slots| ensures Small(slots[n], U32 + 50) {
      ShortText(slots[n].key.utf8);
    }
    SlotsSize(slots, U32 + 50);
  }

  lemma {:induction false} DescriptorSize(d: Descriptor)
    requires |d.id| < U32 && d.transports.None?
    ensures |Enc(DescriptorTo(d))| <= 9 + 3 * (U32 + 50)
  {
    var slots := DescriptorSlots(d);
    forall n | 0 <= n < |slots| ensures Small(slots[n], U32 + 50) {
      ShortText(slots[n].key.utf8);
    }
    SlotsSize(slots, U32 + 50);
  }

  /** A response as the soft token makes them. */
  ghost predicate ModestResponse(r: Response) {
    && |r.credential.id| < U32 && r.credential.transports.None? && |r.authData| < U32 && |r.signature| < U32
    && (r.user.Some? ==> |r.user.value.id| < U32 && r.user.value.name.None? && r.user.value.displayName.None?)
    && r.largeBlobKey.None?
  }

  lemma {:induction false} ResponseSize(r: Response)
    requires ModestResponse(r)
    ensures |Enc(ResponseTo(r))| < U64
  {
    var slots, m := ResponseSlots(r), 100 + 4 * U32;
    DescriptorSize(r.credential);
    if r.user.Some? { UserSize(r.user.value); }
    forall n | 0 <= n < |slots| ensures Small(slots[n], m) {
      SmallKey(slots[n].key.n);
      if n == 0 {} else if n == 1 {} else if n == 2 {} else if n == 3 {} else if n == 4 {} else if n == 5 {} else {}
    }
    SlotsSize(slots, m);
  }
}
