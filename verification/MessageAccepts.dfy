/**
 What the parsers of the getAssertion and clientPIN messages accept: every member of its own type wherever it occurs,
 the required ones there, unknown ones ignored, the last of a repeated one kept.
 */
module MessageAccepts {
  import opened Wrappers
  import opened ByteOrder
  import opened Cbor
  import opened Members
  import opened Credentials
  import opened GetAssertion
  import opened GetInfo
  import opened ClientPin
  import opened MessageWire

  // ---- the last of each member

  function LastUnder(es: seq<Entry>, key: Value): Option<Value> {
    if es == [] then None
    else if es[|es| - 1].key == key then Some(es[|es| - 1].val)
    else LastUnder(es[..|es| - 1], key)
  }

  lemma {:induction false} LastAfter(e: Entry, es: seq<Entry>, key: Value)
    ensures LastUnder([e] + es, key)
         == if LastUnder(es, key).Some? then LastUnder(es, key) else if e.key == key then Some(e.val) else None
  {
    if es != [] {
      assert ([e] + es)[..|es|] == [e] + es[..|es| - 1];
      LastAfter(e, es[..|es| - 1], key);
    } else {
      assert ([e] + es)[..0] == [];
    }
  }

  lemma {:induction false} ParseKeepsLast(check: Check, m: Message, es: seq<Entry>, key: Value)
    requires ParseOnto(check, m, es).Ok?
    ensures Get(ParseOnto(check, m, es).value, key)
         == if LastUnder(es, key).Some? then LastUnder(es, key) else Get(m, key)
    decreases |es|
  {
    if es != [] {
      ParseKeepsLast(check, m[es[0].key := es[0].val], es[1..], key);
      LastAfter(es[0], es[1..], key);
      assert [es[0]] + es[1..] == es;
    }
  }

  lemma {:induction false} LastIsThere(es: seq<Entry>, key: Value) returns (i: nat)
    requires LastUnder(es, key).Some?
    ensures i < |es| && es[i] == Entry(key, LastUnder(es, key).value)
    decreases |es|
  {
    i := |es| - 1;
    if es[i].key != key { i := LastIsThere(es[..i], key); }
  }

  /** The check lets every entry pass. */
  ghost predicate Passes(check: Check, es: seq<Entry>) {
    forall i :: 0 <= i < |es| ==> check(es[i].key, es[i].val).None?
  }

  /** Reading succeeds exactly when every entry passes, and keeps the last of each. */
  lemma {:induction false} ReadExactly(check: Check, es: seq<Entry>)
    ensures Parse(check, es).Ok? <==> Passes(check, es)
    ensures Parse(check, es).Ok? ==>
              forall key :: Get(Parse(check, es).value, key) == LastUnder(es, key)
                            && (LastUnder(es, key).Some? ==> check(key, LastUnder(es, key).value).None?)
  {
    ParseHolds(check, map[], es);
    if Parse(check, es).Ok? {
      forall key
        ensures Get(Parse(check, es).value, key) == LastUnder(es, key)
                && (LastUnder(es, key).Some? ==> check(key, LastUnder(es, key).value).None?)
      {
        ParseKeepsLast(check, map[], es, key);
        if LastUnder(es, key).Some? { var i := LastIsThere(es, key); }
      }
    }
  }

  // ---- descriptors, users, options

  predicate AllTexts(v: Value) {
    v.Array? && forall i :: 0 <= i < |v.items| ==> v.items[i].Text?
  }

  lemma {:induction false} TextsExact(items: seq<Value>, of: Value)
    ensures TextsOf(items, of).Ok? <==> forall i :: 0 <= i < |items| ==> items[i].Text?
    ensures TextsOf(items, of).Ok? ==>
              && |TextsOf(items, of).value| == |items|
              && forall i :: 0 <= i < |items| ==> items[i] == Text(TextsOf(items, of).value[i])
  {
    if items != [] { TextsExact(items[1..], of); }
  }

  /** Every member a descriptor has is of its type. */
  ghost predicate DescriptorTyped(es: seq<Entry>) {
    forall i :: 0 <= i < |es| ==>
                  && (es[i].key == Word("type") ==> es[i].val == Word("public-key"))
                  && (es[i].key == Word("id") ==> es[i].val.Bytes?)
                  && (es[i].key == Word("transports") ==> AllTexts(es[i].val))
  }

  ghost predicate GoodDescriptor(v: Value) {
    && v.Map? && DescriptorTyped(v.entries)
    && LastUnder(v.entries, Word("type")).Some? && LastUnder(v.entries, Word("id")).Some?
  }

  lemma {:induction false} DescriptorPasses(es: seq<Entry>)
    ensures Passes(DescriptorCheck, es) <==> DescriptorTyped(es)
  {
    TypeNames();
    EntityNames();
    DistinctNames();
    forall i | 0 <= i < |es|
      ensures DescriptorCheck(es[i].key, es[i].val).None? <==>
              && (es[i].key == Word("type") ==> es[i].val == Word("public-key"))
              && (es[i].key == Word("id") ==> es[i].val.Bytes?)
              && (es[i].key == Word("transports") ==> AllTexts(es[i].val))
    {
      if es[i].val.Array? { TextsExact(es[i].val.items, TRANSPORTS); }
    }
  }

  lemma {:induction false} DistinctNames()
    ensures TYPE != ID && TYPE != TRANSPORTS && ID != TRANSPORTS && ID != NAME && ID != DISPLAY_NAME
            && NAME != DISPLAY_NAME
  {
    assert |TYPE.utf8| == 4 && |ID.utf8| == 2 && |TRANSPORTS.utf8| == 10 && |NAME.utf8| == 4;
    assert |DISPLAY_NAME.utf8| == 11;
  }

  /** A descriptor is accepted if and only if it is well typed and has its type and its id; the id is the last one. */
  lemma {:induction false} DescriptorAccepted(v: Value)
    ensures DescriptorFrom(v).Ok? <==> GoodDescriptor(v)
    ensures GoodDescriptor(v) ==> Some(Bytes(DescriptorFrom(v).value.id)) == LastUnder(v.entries, Word("id"))
    ensures GoodDescriptor(v) ==>
              TextsOnWire(LastUnder(v.entries, Word("transports")), DescriptorFrom(v).value.transports)
  {
    if v.Map? {
      TypeNames();
      EntityNames();
      DescriptorPasses(v.entries);
      ReadExactly(DescriptorCheck, v.entries);
      if DescriptorTyped(v.entries) { DescriptorBuilt(v, Parse(DescriptorCheck, v.entries).value); }
    }
  }

  lemma {:induction false} DescriptorBuilt(v: Value, m: Message)
    requires v.Map? && Parse(DescriptorCheck, v.entries) == Ok(m)
    requires forall key :: Get(m, key) == LastUnder(v.entries, key)
                           && (LastUnder(v.entries, key).Some? ==>
                                 DescriptorCheck(key, LastUnder(v.entries, key).value).None?)
    ensures DescriptorFrom(v).Ok? <==> LastUnder(v.entries, TYPE).Some? && LastUnder(v.entries, ID).Some?
    ensures DescriptorFrom(v).Ok? ==>
              && Some(Bytes(DescriptorFrom(v).value.id)) == LastUnder(v.entries, ID)
              && TextsOnWire(LastUnder(v.entries, TRANSPORTS), DescriptorFrom(v).value.transports)
  {
    DistinctNames();
    var id, transports := LastUnder(v.entries, ID), LastUnder(v.entries, TRANSPORTS);
    assert Get(m, TYPE) == LastUnder(v.entries, TYPE) && Get(m, ID) == id && Get(m, TRANSPORTS) == transports;
    if transports.Some? && transports.value.Array? { TextsExact(transports.value.items, TRANSPORTS); }
  }

  ghost predicate UserTyped(es: seq<Entry>) {
    forall i :: 0 <= i < |es| ==>
                  && (es[i].key == Word("id") ==> es[i].val.Bytes?)
                  && (es[i].key == Word("name") ==> es[i].val.Text?)
                  && (es[i].key == Word("displayName") ==> es[i].val.Text?)
  }

  /** A user entity likewise, of which only the id is required. */
  lemma {:induction false} UserAccepted(v: Value)
    ensures UserFrom(v).Ok? <==> v.Map? && UserTyped(v.entries) && LastUnder(v.entries, Word("id")).Some?
    ensures UserFrom(v).Ok? ==> Some(Bytes(UserFrom(v).value.id)) == LastUnder(v.entries, Word("id"))
  {
    EntityNames();
    DistinctNames();
    if v.Map? {
      assert Passes(UserCheck, v.entries) <==> UserTyped(v.entries);
      ReadExactly(UserCheck, v.entries);
      if UserTyped(v.entries) {
        var m := Parse(UserCheck, v.entries).value;
        assert Get(m, ID) == LastUnder(v.entries, ID) && Get(m, NAME) == LastUnder(v.entries, NAME);
        assert Get(m, DISPLAY_NAME) == LastUnder(v.entries, DISPLAY_NAME);
      }
    }
  }

  // ---- the getAssertion response

  /** A count of at most 64 bits. */
  predicate SmallCount(v: Value) {
    v.Int? && 0 <= v.n < 0x1_0000_0000_0000_0000
  }

  ghost predicate ResponseMember(key: Value, v: Value) {
    && (key == Int(1) ==> GoodDescriptor(v)) && (key == Int(2) ==> v.Bytes?) && (key == Int(3) ==> v.Bytes?)
    && (key == Int(4) ==> v.Map? && UserTyped(v.entries) && LastUnder(v.entries, Word("id")).Some?)
    && (key == Int(5) ==> SmallCount(v)) && (key == Int(6) ==> v.Bool?) && (key == Int(7) ==> v.Bytes?)
  }

  ghost predicate ResponseTyped(es: seq<Entry>) {
    forall i :: 0 <= i < |es| ==> ResponseMember(es[i].key, es[i].val)
  }

  /** The response says that the user selected among several. */
  ghost predicate SelectionClaimed(es: seq<Entry>) {
    && LastUnder(es, Int(6)).Some?
    && LastUnder(es, Int(5)).Some? && LastUnder(es, Int(5)).value.Int? && LastUnder(es, Int(5)).value.n > 1
  }

  lemma {:induction false} ResponseMemberExact(key: Value, v: Value)
    ensures ResponseCheck(key, v).None? <==> ResponseMember(key, v)
  {
    DescriptorAccepted(v);
    UserAccepted(v);
  }

  /**
   A response is accepted if and only if its members are well typed, the first three are there, and no
   selection among several is claimed.
   */
  lemma {:induction false} ResponseAccepted(es: seq<Entry>)
    ensures ResponseFrom(Map(es)).Ok? <==>
            && ResponseTyped(es) && !SelectionClaimed(es)
            && LastUnder(es, Int(1)).Some? && LastUnder(es, Int(2)).Some? && LastUnder(es, Int(3)).Some?
    ensures ResponseFrom(Map(es)).Ok? ==>
              var r := ResponseFrom(Map(es)).value;
              && Ok(r.credential) == DescriptorFrom(LastUnder(es, Int(1)).value)
              && LastUnder(es, Int(2)) == Some(Bytes(r.authData)) && LastUnder(es, Int(3)) == Some(Bytes(r.signature))
  {
    forall i | 0 <= i < |es| ensures ResponseCheck(es[i].key, es[i].val).None? <==> ResponseMember(es[i].key, es[i].val)
    {
      ResponseMemberExact(es[i].key, es[i].val);
    }
    assert Passes(ResponseCheck, es) <==> ResponseTyped(es);
    ReadExactly(ResponseCheck, es);
    if ResponseTyped(es) { ResponseBuiltFrom(es, Parse(ResponseCheck, es).value); }
  }

  lemma {:induction false} ResponseBuiltFrom(es: seq<Entry>, m: Message)
    requires forall key :: Get(m, key) == LastUnder(es, key)
                           && (LastUnder(es, key).Some? ==> ResponseCheck(key, LastUnder(es, key).value).None?)
    ensures BuildResponse(m).Ok? <==>
            && !SelectionClaimed(es)
            && LastUnder(es, Int(1)).Some? && LastUnder(es, Int(2)).Some? && LastUnder(es, Int(3)).Some?
    ensures BuildResponse(m).Ok? ==>
              var r := BuildResponse(m).value;
              && Ok(r.credential) == DescriptorFrom(LastUnder(es, Int(1)).value)
              && LastUnder(es, Int(2)) == Some(Bytes(r.authData)) && LastUnder(es, Int(3)) == Some(Bytes(r.signature))
  {
    assert Get(m, Int(1)) == LastUnder(es, Int(1)) && Get(m, Int(2)) == LastUnder(es, Int(2));
    assert Get(m, Int(3)) == LastUnder(es, Int(3)) && Get(m, Int(4)) == LastUnder(es, Int(4));
    assert Get(m, Int(5)) == LastUnder(es, Int(5)) && Get(m, Int(6)) == LastUnder(es, Int(6));
    assert Get(m, Int(7)) == LastUnder(es, Int(7));
  }

  /** A required member that is missing is reported by its key, the first of them first. */
  lemma {:induction false} ResponseMissing(es: seq<Entry>)
    requires ResponseTyped(es)
    ensures LastUnder(es, Int(1)).None? ==> ResponseFrom(Map(es)) == Err(Missing(Int(1)))
    ensures LastUnder(es, Int(1)).Some? && LastUnder(es, Int(2)).None? ==>
              ResponseFrom(Map(es)) == Err(Missing(Int(2)))
    ensures LastUnder(es, Int(1)).Some? && LastUnder(es, Int(2)).Some? && LastUnder(es, Int(3)).None? ==>
              ResponseFrom(Map(es)) == Err(Missing(Int(3)))
  {
    forall i | 0 <= i < |es| ensures ResponseCheck(es[i].key, es[i].val).None? {
      ResponseMemberExact(es[i].key, es[i].val);
    }
    ReadExactly(ResponseCheck, es);
    var m := Parse(ResponseCheck, es).value;
    assert Get(m, Int(1)) == LastUnder(es, Int(1)) && Get(m, Int(2)) == LastUnder(es, Int(2));
    assert Get(m, Int(3)) == LastUnder(es, Int(3));
  }

  // ---- the getAssertion request

  ghost predicate GoodOptions(v: Value) {
    && v.Map?
    && forall i :: 0 <= i < |v.entries| ==>
                     v.entries[i].key == Word("up") || v.entries[i].key == Word("uv") ==> v.entries[i].val.Bool?
  }

  ghost predicate RequestMember(key: Value, v: Value) {
    && (key == Int(1) ==> v.Text?) && (key == Int(2) ==> v.Bytes?)
    && (key == Int(3) ==> v.Array? && forall i :: 0 <= i < |v.items| ==> GoodDescriptor(v.items[i]))
    && (key == Int(5) ==> GoodOptions(v)) && (key == Int(6) ==> v.Bytes?)
    && (key == Int(7) ==> v.Int? && 0 <= v.n < 0x1_0000_0000)
  }

  lemma {:induction false} DescriptorsExact(items: seq<Value>)
    ensures DescriptorsOf(items).Ok? <==> forall i :: 0 <= i < |items| ==> GoodDescriptor(items[i])
    ensures DescriptorsOf(items).Ok? ==> |DescriptorsOf(items).value| == |items|
  {
    if items != [] {
      DescriptorAccepted(items[0]);
      DescriptorsExact(items[1..]);
    }
  }

  lemma {:induction false} OptionsExact(v: Value, of: Value)
    ensures AsOptions(v, of).Ok? <==> GoodOptions(v)
  {
    OptionNames();
    assert UP.utf8[1] != UV.utf8[1];
    if v.Map? {
      assert Passes(OptionsCheck, v.entries) <==> GoodOptions(v);
      ReadExactly(OptionsCheck, v.entries);
      if GoodOptions(v) {
        var m := Parse(OptionsCheck, v.entries).value;
        assert Get(m, UP) == LastUnder(v.entries, UP) && Get(m, UV) == LastUnder(v.entries, UV);
      }
    }
  }

  lemma {:induction false} RequestMemberExact(key: Value, v: Value)
    ensures RequestCheck(key, v).None? <==> RequestMember(key, v)
  {
    if key == Int(3) && v.Array? { DescriptorsExact(v.items); } else if key == Int(5) { OptionsExact(v, key); }
  }

  /**
   A request is accepted if and only if its members are well typed and the first two are there; an
   allow list is taken as none exactly when it is absent or empty.
   */
  lemma {:induction false} RequestAccepted(es: seq<Entry>)
    ensures RequestFrom(Map(es)).Ok? <==>
            && (forall i :: 0 <= i < |es| ==> RequestMember(es[i].key, es[i].val))
            && LastUnder(es, Int(1)).Some? && LastUnder(es, Int(2)).Some?
    ensures RequestFrom(Map(es)).Ok? ==>
              var r := RequestFrom(Map(es)).value;
              && LastUnder(es, Int(1)) == Some(Text(r.rpId)) && LastUnder(es, Int(2)) == Some(Bytes(r.clientDataHash))
              && (r.allowList.None? <==> LastUnder(es, Int(3)).None? || LastUnder(es, Int(3)) == Some(Array([])))
              && r.extensions == LastUnder(es, Int(4)) && BytesSlot(r.pinUvAuthParam) == LastUnder(es, Int(6))
  {
    forall i | 0 <= i < |es| ensures RequestCheck(es[i].key, es[i].val).None? <==> RequestMember(es[i].key, es[i].val) {
      RequestMemberExact(es[i].key, es[i].val);
    }
    assert Passes(RequestCheck, es) <==> forall i :: 0 <= i < |es| ==> RequestMember(es[i].key, es[i].val);
    ReadExactly(RequestCheck, es);
    if Passes(RequestCheck, es) { RequestBuiltFrom(es, Parse(RequestCheck, es).value); }
  }

  lemma {:induction false} RequestBuiltFrom(es: seq<Entry>, m: Message)
    requires forall key :: Get(m, key) == LastUnder(es, key)
                           && (LastUnder(es, key).Some? ==> RequestCheck(key, LastUnder(es, key).value).None?)
    ensures BuildRequest(m).Ok? <==> LastUnder(es, Int(1)).Some? && LastUnder(es, Int(2)).Some?
    ensures BuildRequest(m).Ok? ==>
              var r := BuildRequest(m).value;
              && LastUnder(es, Int(1)) == Some(Text(r.rpId)) && LastUnder(es, Int(2)) == Some(Bytes(r.clientDataHash))
              && (r.allowList.None? <==> LastUnder(es, Int(3)).None? || LastUnder(es, Int(3)) == Some(Array([])))
              && r.extensions == LastUnder(es, Int(4)) && BytesSlot(r.pinUvAuthParam) == LastUnder(es, Int(6))
  {
    assert Get(m, Int(1)) == LastUnder(es, Int(1)) && Get(m, Int(2)) == LastUnder(es, Int(2));
    assert Get(m, Int(4)) == LastUnder(es, Int(4)) && Get(m, Int(5)) == LastUnder(es, Int(5));
    assert Get(m, Int(6)) == LastUnder(es, Int(6)) && Get(m, Int(7)) == LastUnder(es, Int(7));
    assert LastUnder(es, Int(3)).Some? ==> RequestCheck(Int(3), LastUnder(es, Int(3)).value).None?;
    AllowListTaken(LastUnder(es, Int(3)), m);
  }

  lemma {:induction false} AllowListTaken(list: Option<Value>, m: Message)
    requires Get(m, Int(3)) == list && (list.Some? ==> RequestCheck(Int(3), list.value).None?)
    ensures var taken := Optional(m, Int(3), AsDescriptors);
            taken.Ok? && (taken.value.None? || taken.value == Some([]) <==> list.None? || list == Some(Array([])))
  {
    if list.Some? { DescriptorsExact(list.value.items); }
  }

  // ---- the clientPIN response

  ghost predicate PinMember(key: Value, v: Value) {
    && (key == Int(2) ==> v.Bytes?)
    && (key == Int(3) ==> v.Int? && 0 <= v.n <= 255) && (key == Int(5) ==> v.Int? && 0 <= v.n <= 255)
  }

  /** A clientPIN response is accepted if and only if its members are well typed; each is the last one there. */
  lemma {:induction false} PinResponseAccepted(es: seq<Entry>)
    ensures PinResponseFrom(Map(es)).Ok? <==> forall i :: 0 <= i < |es| ==> PinMember(es[i].key, es[i].val)
    ensures PinResponseFrom(Map(es)).Ok? ==>
              var r := PinResponseFrom(Map(es)).value;
              && r.keyAgreement == LastUnder(es, Int(1))
              && LastUnder(es, Int(2)) == BytesSlot(r.pinUvAuthToken)
              && LastUnder(es, Int(3)) == NumberSlot(r.pinRetries) && LastUnder(es, Int(5)) == NumberSlot(r.uvRetries)
  {
    forall i | 0 <= i < |es| ensures PinResponseCheck(es[i].key, es[i].val).None? <==>
      PinMember(es[i].key, es[i].val) {}
    assert Passes(PinResponseCheck, es) <==> forall i :: 0 <= i < |es| ==> PinMember(es[i].key, es[i].val);
    ReadExactly(PinResponseCheck, es);
    if Passes(PinResponseCheck, es) {
      var m := Parse(PinResponseCheck, es).value;
      assert Get(m, Int(1)) == LastUnder(es, Int(1)) && Get(m, Int(2)) == LastUnder(es, Int(2));
      assert Get(m, Int(3)) == LastUnder(es, Int(3)) && Get(m, Int(5)) == LastUnder(es, Int(5));
    }
  }

  // ---- the token's key, as the platform reads it

  /** Key type EC2, an algorithm that is absent, no integer, or -25, curve P-256, and coordinates of 32 bytes. */
  ghost predicate PeerKey(es: seq<Entry>, x: seq<byte>, y: seq<byte>) {
    && LastUnder(es, Int(1)) == Some(Int(2)) && LastUnder(es, Int(-1)) == Some(Int(1))
    && (LastUnder(es, Int(3)).Some? && LastUnder(es, Int(3)).value.Int? ==> LastUnder(es, Int(3)).value.n == -25)
    && LastUnder(es, Int(-2)) == Some(Bytes(x)) && |x| == 32
    && LastUnder(es, Int(-3)) == Some(Bytes(y)) && |y| == 32
  }

  lemma {:induction false} PeerPointAccepted(es: seq<Entry>, x: seq<byte>, y: seq<byte>)
    ensures PeerPoint(Map(es)) == Some((x, y)) <==> PeerKey(es, x, y)
  {
    assert Passes(AnyMember, es);
    ReadExactly(AnyMember, es);
    var m := Parse(AnyMember, es).value;
    assert Get(m, Int(1)) == LastUnder(es, Int(1)) && Get(m, Int(3)) == LastUnder(es, Int(3));
    assert Get(m, Int(-1)) == LastUnder(es, Int(-1)) && Get(m, Int(-2)) == LastUnder(es, Int(-2));
    assert Get(m, Int(-3)) == LastUnder(es, Int(-3));
  }

  /** The token takes the last byte string under each coordinate, whatever else the key says. */
  lemma {:induction false} PlatformPointAccepted(v: Value)
    ensures PlatformPoint(v).Some? <==>
            && v.Map? && LastBytes(v.entries, -2).Some? && |LastBytes(v.entries, -2).value| == 32
            && LastBytes(v.entries, -3).Some? && |LastBytes(v.entries, -3).value| == 32
  {
  }

  // ---- the getInfo response

  predicate AllCounts(v: Value, bound: int) {
    v.Array? && forall i :: 0 <= i < |v.items| ==> v.items[i].Int? && 0 <= v.items[i].n < bound
  }

  predicate AllFlags(v: Value) {
    v.Map? && forall i :: 0 <= i < |v.entries| ==> v.entries[i].key.Text? && v.entries[i].val.Bool?
  }

  /** An algorithm parameter: its type "public-key" and an identifier of 64 signed bits, both there. */
  ghost predicate GoodAlgorithm(v: Value) {
    && v.Map? && LastUnder(v.entries, Word("type")).Some? && LastUnder(v.entries, Word("alg")).Some?
    && forall i :: 0 <= i < |v.entries| ==>
                     && (v.entries[i].key == Word("type") ==> v.entries[i].val == Word("public-key"))
                     && (v.entries[i].key == Word("alg") ==>
                           v.entries[i].val.Int?
                           && -0x8000_0000_0000_0000 <= v.entries[i].val.n < 0x8000_0000_0000_0000)
  }

  ghost predicate InfoMember(key: Value, v: Value) {
    && (key in {Int(1), Int(2), Int(9)} ==> AllTexts(v)) && (key == Int(3) ==> v.Bytes?)
    && (key == Int(4) ==> AllFlags(v)) && (key == Int(6) ==> AllCounts(v, 0x1_0000_0000))
    && (key == Int(10) ==> v.Array? && forall i :: 0 <= i < |v.items| ==> GoodAlgorithm(v.items[i]))
    && (key == Int(12) ==> v.Bool?) && (key == Int(19) ==> v.Map?)
    && (key == Int(21) ==> AllCounts(v, 0x1_0000_0000_0000_0000))
    && (key in {Int(5), Int(7), Int(8), Int(11), Int(13), Int(14), Int(15), Int(16), Int(17), Int(18), Int(20)} ==>
          SmallCount(v))
  }

  lemma {:induction false} CountsExact(items: seq<Value>, of: Value)
    ensures UintsOf(items, of).Ok? <==> forall i :: 0 <= i < |items| ==> SmallCount(items[i])
    ensures UintsOf(items, of).Ok? ==>
              && |UintsOf(items, of).value| == |items|
              && forall i :: 0 <= i < |items| ==> items[i] == Int(UintsOf(items, of).value[i])
  {
    if items != [] { CountsExact(items[1..], of); }
  }

  lemma {:induction false} SelectorsExact(ns: seq<nat>, of: Value)
    ensures ProtocolsOf(ns, of).Ok? <==> forall i :: 0 <= i < |ns| ==> ns[i] < 0x1_0000_0000
  {
    if ns != [] { SelectorsExact(ns[1..], of); }
  }

  lemma {:induction false} FlagsExact(entries: seq<Entry>, known: map<seq<byte>, bool>, of: Value)
    ensures OptionsOf(entries, known, of).Ok? <==>
            forall i :: 0 <= i < |entries| ==> entries[i].key.Text? && entries[i].val.Bool?
    decreases |entries|
  {
    if entries != [] && entries[0].key.Text? && entries[0].val.Bool? {
      FlagsExact(entries[1..], known[entries[0].key.utf8 := entries[0].val.flag], of);
    }
  }

  lemma {:induction false} AlgorithmExact(v: Value)
    ensures AlgorithmFrom(v).Ok? <==> GoodAlgorithm(v)
  {
    TypeNames();
    assert |TYPE.utf8| == 4 && |ALG.utf8| == 3;
    if v.Map? {
      ReadExactly(AlgorithmCheck, v.entries);
      if Passes(AlgorithmCheck, v.entries) {
        var m := Parse(AlgorithmCheck, v.entries).value;
        assert Get(m, TYPE) == LastUnder(v.entries, TYPE) && Get(m, ALG) == LastUnder(v.entries, ALG);
      }
    }
  }

  lemma {:induction false} AlgorithmsExact(items: seq<Value>)
    ensures AlgorithmsOf(items).Ok? <==> forall i :: 0 <= i < |items| ==> GoodAlgorithm(items[i])
  {
    if items != [] {
      AlgorithmExact(items[0]);
      AlgorithmsExact(items[1..]);
    }
  }

  lemma {:induction false} SelectorListExact(v: Value, of: Value)
    ensures AsProtocols(v, of).Ok? <==> AllCounts(v, 0x1_0000_0000)
  {
    if v.Array? {
      CountsExact(v.items, of);
      var ns := UintsOf(v.items, of);
      if ns.Ok? {
        SelectorsExact(ns.value, of);
        assert forall i :: 0 <= i < |v.items| ==> v.items[i] == Int(ns.value[i]);
      }
    }
  }

  lemma {:induction false} InfoTextsExact(key: Value, v: Value)
    requires key == Int(1) || key == Int(2) || key == Int(9)
    ensures InfoCheck(key, v).None? <==> AllTexts(v)
  {
    if v.Array? { TextsExact(v.items, key); }
  }

  lemma {:induction false} InfoCountsExact(v: Value)
    ensures InfoCheck(Int(6), v).None? <==> AllCounts(v, 0x1_0000_0000)
    ensures InfoCheck(Int(21), v).None? <==> AllCounts(v, 0x1_0000_0000_0000_0000)
  {
    SelectorListExact(v, Int(6));
    if v.Array? { CountsExact(v.items, Int(21)); }
  }

  lemma {:induction false} InfoAlgorithmsExact(v: Value)
    ensures InfoCheck(Int(10), v).None? <==> v.Array? && forall i :: 0 <= i < |v.items| ==> GoodAlgorithm(v.items[i])
  {
    if v.Array? { AlgorithmsExact(v.items); }
  }

  lemma {:induction false} InfoMemberExact(key: Value, v: Value)
    ensures InfoCheck(key, v).None? <==> InfoMember(key, v)
  {
    if key == Int(1) || key == Int(2) || key == Int(9) {
      InfoTextsExact(key, v);
    } else if key == Int(6) || key == Int(21) {
      InfoCountsExact(v);
    } else if key == Int(10) {
      InfoAlgorithmsExact(v);
    } else if v.Map? {
      FlagsExact(v.entries, map[], key);
    }
  }

  /** A getInfo response with an ill-typed member, or without versions or aaguid, is refused; else the rules decide. */
  lemma {:induction false} InfoAccepted(es: seq<Entry>)
    ensures Parse(InfoCheck, es).Ok? <==> forall i :: 0 <= i < |es| ==> InfoMember(es[i].key, es[i].val)
    ensures InfoFrom(Map(es)).Ok? ==>
              && (forall i :: 0 <= i < |es| ==> InfoMember(es[i].key, es[i].val))
              && LastUnder(es, Int(1)).Some? && LastUnder(es, Int(3)).Some?
  {
    forall i | 0 <= i < |es| ensures InfoCheck(es[i].key, es[i].val).None? <==> InfoMember(es[i].key, es[i].val) {
      InfoMemberExact(es[i].key, es[i].val);
    }
    ReadExactly(InfoCheck, es);
    if Passes(InfoCheck, es) {
      var m := Parse(InfoCheck, es).value;
      assert Get(m, Int(1)) == LastUnder(es, Int(1)) && Get(m, Int(3)) == LastUnder(es, Int(3));
    }
  }
}
