/**
 Messages read the same however the maps in them are ordered, at any level: descriptors, user
 entities, options and algorithm entries included. What a parser hands on uninterpreted comes out
 the same up to that order.
 */
module MessageReorder {
  import opened Wrappers
  import opened Cbor
  import opened CborReorder
  import opened Members
  import opened Credentials
  import opened GetAssertion
  import opened GetInfo
  import opened ClientPin

  /** Both succeed with the same value, or neither succeeds. */
  ghost predicate Agree<T>(a: Result<T, MemberError>, b: Result<T, MemberError>) {
    a.Ok? || b.Ok? ==> a == b
  }

  /** The keys that any message looks up. */
  predicate PlainKey(k: Value) {
    k.Int? || k.Text?
  }

  /** `n` holds the members of `m` in canonical form, as far as they can be looked up. */
  ghost predicate CanonMessage(m: Message, n: Message) {
    forall k: Value :: PlainKey(k) ==> Get(n, k) == CanonOpt(Get(m, k))
  }

  /** No map inside a member repeats a key. */
  ghost predicate Clean(m: Message) {
    forall k: Value :: k in m ==> NoDuplicates(m[k])
  }

  /** The check makes no difference between an entry and its canonical form. */
  ghost predicate CheckKept(check: Check, e: Entry) {
    check(e.key, e.val).None? <==> check(Canon(e.key), Canon(e.val)).None?
  }

  // ---- reading the canonical form of a message

  lemma {:induction false} CleanKeys(es: seq<Entry>)
    requires NoDuplicates(Map(es))
    ensures DistinctValues(es)
  {
    forall i, j | 0 <= i < j < |es| ensures es[i].key != es[j].key {
      assert Enc(es[i].key) != Enc(es[j].key);
    }
  }

  lemma {:induction false} CanonPlain(k: Value)
    ensures PlainKey(Canon(k)) <==> PlainKey(k)
    ensures PlainKey(k) ==> Canon(k) == k
  {
  }

  lemma {:induction false} ParseCanon(check: Check, es: seq<Entry>)
    requires NoDuplicates(Map(es)) && forall i :: 0 <= i < |es| ==> CheckKept(check, es[i])
    ensures var c := Canon(Map(es)).entries;
            && (Parse(check, es).Ok? <==> Parse(check, c).Ok?)
            && (Parse(check, es).Ok? ==>
                  Clean(Parse(check, es).value) && CanonMessage(Parse(check, es).value, Parse(check, c).value))
  {
    var c := Canon(Map(es)).entries;
    CanonFacts(Map(es));
    CleanKeys(es);
    CleanKeys(c);
    ParseHolds(check, map[], es);
    ParseHolds(check, map[], c);
    ChecksKept(check, es);
    if Parse(check, es).Ok? {
      HoldsCanon(es, Parse(check, es).value, Parse(check, c).value);
      HoldsClean(es, Parse(check, es).value);
    }
  }

  ghost predicate AllPass(check: Check, es: seq<Entry>) {
    forall i :: 0 <= i < |es| ==> check(es[i].key, es[i].val).None?
  }

  lemma {:induction false} ChecksKept(check: Check, es: seq<Entry>)
    requires forall i :: 0 <= i < |es| ==> CheckKept(check, es[i])
    ensures AllPass(check, es) <==> AllPass(check, Canon(Map(es)).entries)
  {
    var c := Canon(Map(es)).entries;
    if AllPass(check, es) {
      forall j | 0 <= j < |c| ensures check(c[j].key, c[j].val).None? {
        var i := CanonOrigin(es, j);
        assert CheckKept(check, es[i]);
      }
    }
    if AllPass(check, c) {
      forall i | 0 <= i < |es| ensures check(es[i].key, es[i].val).None? {
        var j := CanonTarget(es, i);
        assert CheckKept(check, es[i]) && check(c[j].key, c[j].val).None?;
      }
    }
  }

  lemma {:induction false} HoldsCanon(es: seq<Entry>, m: Message, n: Message)
    requires HoldsEntries(m, map[], es) && HoldsEntries(n, map[], Canon(Map(es)).entries)
    ensures CanonMessage(m, n)
  {
    var c := Canon(Map(es)).entries;
    forall k: Value | PlainKey(k) ensures Get(n, k) == CanonOpt(Get(m, k)) {
      if i :| 0 <= i < |es| && es[i].key == k {
        var j := CanonTarget(es, i);
        CanonPlain(k);
        assert Get(n, c[j].key) == Some(c[j].val);
      } else {
        forall j | 0 <= j < |c| ensures c[j].key != k {
          var i := CanonOrigin(es, j);
          CanonPlain(es[i].key);
        }
        assert Get(m, k) == Get(map[], k) && Get(n, k) == Get(map[], k);
      }
    }
  }

  lemma {:induction false} HoldsClean(es: seq<Entry>, m: Message)
    requires NoDuplicates(Map(es)) && HoldsEntries(m, map[], es)
    ensures Clean(m)
  {
    forall k: Value | k in m ensures NoDuplicates(m[k]) {
      assert Get(m, k) != Get(map[], k);
      var i :| 0 <= i < |es| && es[i].key == k;
      assert Get(m, es[i].key) == Some(es[i].val);
    }
  }

  /** A member that reads alike in canonical form is found alike. */
  lemma {:induction false} OptionalAgrees<T>(m: Message, n: Message, k: Value,
                                             read: (Value, Value) -> Result<T, MemberError>)
    requires CanonMessage(m, n) && PlainKey(k) && (k in m ==> Agree(read(Canon(m[k]), k), read(m[k], k)))
    ensures Agree(Optional(n, k, read), Optional(m, k, read)) && Agree(Required(n, k, read), Required(m, k, read))
  {
    assert Get(n, k) == CanonOpt(Get(m, k));
  }

  // ---- values without maps

  lemma {:induction false} TextsCanon(items: seq<Value>, of: Value)
    ensures TextsOf(CanonItems(items), of) == TextsOf(items, of)
  {
    if items != [] {
      TextsCanon(items[1..], of);
      assert CanonItems(items)[1..] == CanonItems(items[1..]);
    }
  }

  lemma {:induction false} UintsCanon(items: seq<Value>, of: Value)
    ensures UintsOf(CanonItems(items), of) == UintsOf(items, of)
  {
    if items != [] {
      UintsCanon(items[1..], of);
      assert CanonItems(items)[1..] == CanonItems(items[1..]);
    }
  }

  lemma {:induction false} FlatCanon(v: Value, of: Value)
    ensures AsText(Canon(v), of) == AsText(v, of) && AsBytes(Canon(v), of) == AsBytes(v, of)
    ensures AsBool(Canon(v), of) == AsBool(v, of) && AsUint(Canon(v), of) == AsUint(v, of)
    ensures AsTexts(Canon(v), of) == AsTexts(v, of) && AsUints(Canon(v), of) == AsUints(v, of)
    ensures AsProtocol(Canon(v), of) == AsProtocol(v, of) && AsProtocols(Canon(v), of) == AsProtocols(v, of)
    ensures AsAlg(Canon(v), of) == AsAlg(v, of) && AsU8(Canon(v), of) == AsU8(v, of)
  {
    if v.Array? {
      TextsCanon(v.items, of);
      UintsCanon(v.items, of);
    }
  }

  lemma {:induction false} FlatMember(m: Message, n: Message, k: Value)
    requires CanonMessage(m, n) && PlainKey(k)
    ensures Agree(Optional(n, k, AsText), Optional(m, k, AsText))
    ensures Agree(Required(n, k, AsText), Required(m, k, AsText))
    ensures Agree(Optional(n, k, AsBytes), Optional(m, k, AsBytes))
    ensures Agree(Required(n, k, AsBytes), Required(m, k, AsBytes))
    ensures Agree(Optional(n, k, AsBool), Optional(m, k, AsBool))
    ensures Agree(Optional(n, k, AsUint), Optional(m, k, AsUint))
    ensures Agree(Optional(n, k, AsTexts), Optional(m, k, AsTexts))
    ensures Agree(Required(n, k, AsTexts), Required(m, k, AsTexts))
    ensures Agree(Optional(n, k, AsUints), Optional(m, k, AsUints))
    ensures Agree(Optional(n, k, AsProtocol), Optional(m, k, AsProtocol))
    ensures Agree(Optional(n, k, AsProtocols), Optional(m, k, AsProtocols))
    ensures Agree(Required(n, k, AsAlg), Required(m, k, AsAlg))
    ensures Agree(Optional(n, k, AsU8), Optional(m, k, AsU8))
  {
    if k in m { FlatCanon(m[k], k); }
    assert Get(n, k) == CanonOpt(Get(m, k));
  }

  // ---- the maps inside messages

  lemma {:induction false} DescriptorCheckKept(e: Entry)
    ensures CheckKept(DescriptorCheck, e)
  {
    CanonPlain(e.key);
    FlatCanon(e.val, ID);
    FlatCanon(e.val, TRANSPORTS);
  }

  lemma {:induction false} DescriptorMembersAlike(m: Message, n: Message)
    requires CanonMessage(m, n)
    ensures Agree(Required(n, ID, AsBytes), Required(m, ID, AsBytes))
    ensures Agree(Optional(n, TRANSPORTS, AsTexts), Optional(m, TRANSPORTS, AsTexts))
    ensures TYPE in n <==> TYPE in m
  {
    FlatMember(m, n, ID);
    FlatMember(m, n, TRANSPORTS);
    assert Get(n, TYPE) == CanonOpt(Get(m, TYPE));
  }

  lemma {:induction false} DescriptorCanon(v: Value)
    requires NoDuplicates(v)
    ensures Agree(DescriptorFrom(Canon(v)), DescriptorFrom(v))
  {
    if v.Map? {
      forall i | 0 <= i < |v.entries| { DescriptorCheckKept(v.entries[i]); }
      ParseCanon(DescriptorCheck, v.entries);
      if Parse(DescriptorCheck, v.entries).Ok? {
        DescriptorMembersAlike(Parse(DescriptorCheck, v.entries).value, Parse(DescriptorCheck, Canon(v).entries).value);
      }
    }
  }

  lemma {:induction false} DescriptorsCanon(items: seq<Value>)
    requires forall i :: 0 <= i < |items| ==> NoDuplicates(items[i])
    ensures Agree(DescriptorsOf(CanonItems(items)), DescriptorsOf(items))
  {
    if items != [] {
      DescriptorCanon(items[0]);
      DescriptorsCanon(items[1..]);
      assert CanonItems(items)[1..] == CanonItems(items[1..]);
    }
  }

  lemma {:induction false} UserCheckKept(e: Entry)
    ensures CheckKept(UserCheck, e)
  {
    CanonPlain(e.key);
    FlatCanon(e.val, ID);
    FlatCanon(e.val, NAME);
    FlatCanon(e.val, DISPLAY_NAME);
  }

  lemma {:induction false} UserMembersAlike(m: Message, n: Message)
    requires CanonMessage(m, n)
    ensures Agree(Required(n, ID, AsBytes), Required(m, ID, AsBytes))
    ensures Agree(Optional(n, NAME, AsText), Optional(m, NAME, AsText))
    ensures Agree(Optional(n, DISPLAY_NAME, AsText), Optional(m, DISPLAY_NAME, AsText))
  {
    FlatMember(m, n, ID);
    FlatMember(m, n, NAME);
    FlatMember(m, n, DISPLAY_NAME);
  }

  lemma {:induction false} UserCanon(v: Value)
    requires NoDuplicates(v)
    ensures Agree(UserFrom(Canon(v)), UserFrom(v))
  {
    if v.Map? {
      forall i | 0 <= i < |v.entries| { UserCheckKept(v.entries[i]); }
      ParseCanon(UserCheck, v.entries);
      if Parse(UserCheck, v.entries).Ok? {
        UserMembersAlike(Parse(UserCheck, v.entries).value, Parse(UserCheck, Canon(v).entries).value);
      }
    }
  }

  lemma {:induction false} OptionsCanon(v: Value, of: Value)
    requires NoDuplicates(v)
    ensures Agree(AsOptions(Canon(v), of), AsOptions(v, of))
  {
    if v.Map? {
      var es := v.entries;
      forall i | 0 <= i < |es| ensures CheckKept(OptionsCheck, es[i]) {
        CanonPlain(es[i].key);
        FlatCanon(es[i].val, UP);
        FlatCanon(es[i].val, UV);
      }
      ParseCanon(OptionsCheck, es);
      if Parse(OptionsCheck, es).Ok? {
        var m, n := Parse(OptionsCheck, es).value, Parse(OptionsCheck, Canon(v).entries).value;
        FlatMember(m, n, UP);
        FlatMember(m, n, UV);
      }
    }
  }

  lemma {:induction false} AlgorithmCanon(v: Value)
    requires NoDuplicates(v)
    ensures Agree(AlgorithmFrom(Canon(v)), AlgorithmFrom(v))
  {
    if v.Map? {
      var es := v.entries;
      forall i | 0 <= i < |es| ensures CheckKept(AlgorithmCheck, es[i]) {
        CanonPlain(es[i].key);
        FlatCanon(es[i].val, ALG);
      }
      ParseCanon(AlgorithmCheck, es);
      if Parse(AlgorithmCheck, es).Ok? {
        var m, n := Parse(AlgorithmCheck, es).value, Parse(AlgorithmCheck, Canon(v).entries).value;
        FlatMember(m, n, ALG);
        assert Get(n, TYPE) == CanonOpt(Get(m, TYPE));
      }
    }
  }

  lemma {:induction false} AlgorithmsCanon(items: seq<Value>)
    requires forall i :: 0 <= i < |items| ==> NoDuplicates(items[i])
    ensures Agree(AlgorithmsOf(CanonItems(items)), AlgorithmsOf(items))
  {
    if items != [] {
      AlgorithmCanon(items[0]);
      AlgorithmsCanon(items[1..]);
      assert CanonItems(items)[1..] == CanonItems(items[1..]);
    }
  }

  /** Descriptors, users, options and algorithms, wherever a message holds them. */
  lemma {:induction false} NestedCanon(v: Value, of: Value)
    requires NoDuplicates(v)
    ensures Agree(AsDescriptor(Canon(v), of), AsDescriptor(v, of))
    ensures Agree(AsDescriptors(Canon(v), of), AsDescriptors(v, of))
    ensures Agree(AsUser(Canon(v), of), AsUser(v, of)) && Agree(AsOptions(Canon(v), of), AsOptions(v, of))
    ensures Agree(AsAlgorithms(Canon(v), of), AsAlgorithms(v, of))
  {
    DescriptorCanon(v);
    UserCanon(v);
    OptionsCanon(v, of);
    if v.Array? {
      DescriptorsCanon(v.items);
      AlgorithmsCanon(v.items);
    }
  }

  // ---- the options map of getInfo

  predicate IsFlag(e: Entry) {
    e.key.Text? && e.val.Bool?
  }

  ghost predicate AllFlags(es: seq<Entry>) {
    forall i :: 0 <= i < |es| ==> IsFlag(es[i])
  }

  /** `r` holds exactly the flags, on top of what was known. */
  ghost predicate HoldsFlags(r: map<Name, bool>, known: map<Name, bool>, es: seq<Entry>) {
    && (forall i :: 0 <= i < |es| ==>
                      IsFlag(es[i]) && es[i].key.utf8 in r && r[es[i].key.utf8] == es[i].val.flag)
    && forall k: Name :: (forall i :: 0 <= i < |es| ==> es[i].key != Text(k)) ==>
                           (k in r <==> k in known) && (k in r ==> r[k] == known[k])
  }

  lemma {:induction false} FlagsRead(es: seq<Entry>, known: map<Name, bool>, of: Value)
    requires DistinctValues(es)
    ensures OptionsOf(es, known, of).Ok? <==> AllFlags(es)
    ensures OptionsOf(es, known, of).Ok? ==> HoldsFlags(OptionsOf(es, known, of).value, known, es)
    decreases |es|
  {
    if es != [] && IsFlag(es[0]) {
      var rest, next := es[1..], known[es[0].key.utf8 := es[0].val.flag];
      FlagsRead(rest, next, of);
      assert forall i :: 1 <= i < |es| ==> es[i] == rest[i - 1];
      if OptionsOf(es, known, of).Ok? { FlagsOneMore(es, known, OptionsOf(es, known, of).value); }
    }
  }

  lemma {:induction false} FlagsOneMore(es: seq<Entry>, known: map<Name, bool>, r: map<Name, bool>)
    requires es != [] && IsFlag(es[0]) && DistinctValues(es)
    requires HoldsFlags(r, known[es[0].key.utf8 := es[0].val.flag], es[1..])
    ensures HoldsFlags(r, known, es)
  {
    var rest := es[1..];
    forall i | 0 <= i < |es| ensures IsFlag(es[i]) && es[i].key.utf8 in r && r[es[i].key.utf8] == es[i].val.flag {
      if i > 0 {
        assert es[i] == rest[i - 1];
      } else {
        assert es[0].key == Text(es[0].key.utf8);
        assert forall j :: 0 <= j < |rest| ==> rest[j] == es[j + 1];
      }
    }
    forall k: Name | forall i :: 0 <= i < |es| ==> es[i].key != Text(k)
      ensures (k in r <==> k in known) && (k in r ==> r[k] == known[k])
    {
      assert es[0].key != Text(k);
      assert forall j :: 0 <= j < |rest| ==> rest[j] == es[j + 1];
    }
  }

  lemma {:induction false} OptionMapCanon(v: Value, of: Value)
    requires NoDuplicates(v)
    ensures Agree(AsOptionMap(Canon(v), of), AsOptionMap(v, of))
  {
    if v.Map? { FlagsCanon(v.entries, Canon(v).entries, of); }
  }

  lemma {:induction false} FlagsCanon(es: seq<Entry>, c: seq<Entry>, of: Value)
    requires NoDuplicates(Map(es)) && c == Canon(Map(es)).entries
    ensures Agree(OptionsOf(c, map[], of), OptionsOf(es, map[], of))
  {
    CanonFacts(Map(es));
    assert Map(c) == Canon(Map(es));
    CleanKeys(es);
    CleanKeys(c);
    FlagsRead(es, map[], of);
    FlagsRead(c, map[], of);
    FlagsKept(es);
    if AllFlags(es) { SameFlags(es, OptionsOf(es, map[], of).value, OptionsOf(c, map[], of).value); }
  }

  lemma {:induction false} FlagsKept(es: seq<Entry>)
    ensures AllFlags(es) <==> AllFlags(Canon(Map(es)).entries)
  {
    var c := Canon(Map(es)).entries;
    if AllFlags(es) {
      forall j | 0 <= j < |c| ensures IsFlag(c[j]) { var i := CanonOrigin(es, j); }
    }
    if AllFlags(c) {
      forall i | 0 <= i < |es| ensures IsFlag(es[i]) {
        var j := CanonTarget(es, i);
        assert IsFlag(c[j]);
      }
    }
  }

  lemma {:induction false} SameFlag(es: seq<Entry>, r: map<Name, bool>, q: map<Name, bool>, k: Name)
    requires HoldsFlags(r, map[], es) && HoldsFlags(q, map[], Canon(Map(es)).entries)
    ensures (k in r <==> k in q) && (k in r ==> r[k] == q[k])
  {
    var c := Canon(Map(es)).entries;
    if i :| 0 <= i < |es| && es[i].key == Text(k) {
      var j := CanonTarget(es, i);
      assert c[j].key == Text(k) && c[j].val == es[i].val;
    } else {
      forall j | 0 <= j < |c| ensures c[j].key != Text(k) {
        var i := CanonOrigin(es, j);
        CanonPlain(es[i].key);
      }
    }
  }

  lemma {:induction false} SameFlags(es: seq<Entry>, r: map<Name, bool>, q: map<Name, bool>)
    requires HoldsFlags(r, map[], es) && HoldsFlags(q, map[], Canon(Map(es)).entries)
    ensures r == q
  {
    forall k: Name { SameFlag(es, r, q, k); }
  }

  // ---- the messages

  /** A request with its extensions in canonical form. */
  function CanonRequest(r: Request): Request {
    r.(extensions := CanonOpt(r.extensions))
  }

  function CanonInfo(i: Info): Info {
    i.(certifications := CanonOpt(i.certifications))
  }

  function CanonPinResponse(r: PinResponse): PinResponse {
    r.(keyAgreement := CanonOpt(r.keyAgreement))
  }

  /** Reading `b` gives what reading `a` gives, put in canonical form by `f`. */
  ghost predicate AgreeUpTo<T>(a: Result<T, MemberError>, b: Result<T, MemberError>, f: T -> T) {
    (a.Ok? <==> b.Ok?) && (a.Ok? ==> b.value == f(a.value))
  }

  lemma {:induction false} RequestCheckKept(e: Entry)
    requires NoDuplicates(e.val)
    ensures CheckKept(RequestCheck, e)
  {
    CanonPlain(e.key);
    FlatCanon(e.val, e.key);
    NestedCanon(e.val, e.key);
  }

  lemma {:induction false} RequestFlatAlike(m: Message, n: Message)
    requires CanonMessage(m, n)
    ensures Agree(Required(n, Int(1), AsText), Required(m, Int(1), AsText))
    ensures Agree(Required(n, Int(2), AsBytes), Required(m, Int(2), AsBytes))
    ensures Agree(Optional(n, Int(6), AsBytes), Optional(m, Int(6), AsBytes))
    ensures Agree(Optional(n, Int(7), AsProtocol), Optional(m, Int(7), AsProtocol))
  {
    FlatMember(m, n, Int(1));
    FlatMember(m, n, Int(2));
    FlatMember(m, n, Int(6));
    FlatMember(m, n, Int(7));
  }

  lemma {:induction false} RequestNestedAlike(m: Message, n: Message)
    requires CanonMessage(m, n) && Clean(m)
    ensures Agree(Optional(n, Int(3), AsDescriptors), Optional(m, Int(3), AsDescriptors))
    ensures Agree(Optional(n, Int(5), AsOptions), Optional(m, Int(5), AsOptions))
    ensures AgreeUpTo(Optional(m, Int(4), AsAny), Optional(n, Int(4), AsAny), CanonOpt)
  {
    if Int(3) in m { NestedCanon(m[Int(3)], Int(3)); }
    OptionalAgrees(m, n, Int(3), AsDescriptors);
    if Int(5) in m { NestedCanon(m[Int(5)], Int(5)); }
    OptionalAgrees(m, n, Int(5), AsOptions);
    assert Get(n, Int(4)) == CanonOpt(Get(m, Int(4)));
  }

  lemma {:induction false} RequestBuiltAlike(m: Message, n: Message)
    requires CanonMessage(m, n) && Clean(m)
    ensures AgreeUpTo(BuildRequest(m), BuildRequest(n), CanonRequest)
  {
    RequestFlatAlike(m, n);
    RequestNestedAlike(m, n);
  }

  lemma {:induction false} RequestCanon(v: Value)
    requires NoDuplicates(v)
    ensures AgreeUpTo(RequestFrom(v), RequestFrom(Canon(v)), CanonRequest)
  {
    if v.Map? {
      forall i | 0 <= i < |v.entries| { RequestCheckKept(v.entries[i]); }
      ParseCanon(RequestCheck, v.entries);
      if Parse(RequestCheck, v.entries).Ok? {
        RequestBuiltAlike(Parse(RequestCheck, v.entries).value, Parse(RequestCheck, Canon(v).entries).value);
      }
    }
  }

  lemma {:induction false} ResponseCheckKept(e: Entry)
    requires NoDuplicates(e.val)
    ensures CheckKept(ResponseCheck, e)
  {
    CanonPlain(e.key);
    FlatCanon(e.val, e.key);
    NestedCanon(e.val, e.key);
  }

  lemma {:induction false} ResponseFlatAlike(m: Message, n: Message)
    requires CanonMessage(m, n)
    ensures Agree(Required(n, Int(2), AsBytes), Required(m, Int(2), AsBytes))
    ensures Agree(Required(n, Int(3), AsBytes), Required(m, Int(3), AsBytes))
    ensures Agree(Optional(n, Int(5), AsUint), Optional(m, Int(5), AsUint))
    ensures Agree(Optional(n, Int(6), AsBool), Optional(m, Int(6), AsBool))
    ensures Agree(Optional(n, Int(7), AsBytes), Optional(m, Int(7), AsBytes))
  {
    FlatMember(m, n, Int(2));
    FlatMember(m, n, Int(3));
    FlatMember(m, n, Int(5));
    FlatMember(m, n, Int(6));
    FlatMember(m, n, Int(7));
  }

  lemma {:induction false} ResponseNestedAlike(m: Message, n: Message)
    requires CanonMessage(m, n) && Clean(m)
    ensures Agree(Required(n, Int(1), AsDescriptor), Required(m, Int(1), AsDescriptor))
    ensures Agree(Optional(n, Int(4), AsUser), Optional(m, Int(4), AsUser))
  {
    if Int(1) in m { NestedCanon(m[Int(1)], Int(1)); }
    OptionalAgrees(m, n, Int(1), AsDescriptor);
    if Int(4) in m { NestedCanon(m[Int(4)], Int(4)); }
    OptionalAgrees(m, n, Int(4), AsUser);
  }

  lemma {:induction false} ResponseBuiltAlike(m: Message, n: Message)
    requires CanonMessage(m, n) && Clean(m)
    ensures Agree(BuildResponse(n), BuildResponse(m))
  {
    ResponseNestedAlike(m, n);
    ResponseFlatAlike(m, n);
  }

  lemma {:induction false} ResponseCanon(v: Value)
    requires NoDuplicates(v)
    ensures Agree(ResponseFrom(Canon(v)), ResponseFrom(v))
  {
    if v.Map? {
      forall i | 0 <= i < |v.entries| { ResponseCheckKept(v.entries[i]); }
      ParseCanon(ResponseCheck, v.entries);
      if Parse(ResponseCheck, v.entries).Ok? {
        ResponseBuiltAlike(Parse(ResponseCheck, v.entries).value, Parse(ResponseCheck, Canon(v).entries).value);
      }
    }
  }

  lemma {:induction false} InfoCheckKept(e: Entry)
    requires NoDuplicates(e.val)
    ensures CheckKept(InfoCheck, e)
  {
    CanonPlain(e.key);
    FlatCanon(e.val, e.key);
    NestedCanon(e.val, e.key);
    OptionMapCanon(e.val, e.key);
  }

  lemma {:induction false} NumbersAlike(m: Message, n: Message)
    requires CanonMessage(m, n)
    ensures NumbersOf(n) == NumbersOf(m)
  {
    forall k: nat ensures k in NumbersOf(n) <==> k in NumbersOf(m) {
      if Int(k) in m { FlatCanon(m[Int(k)], Int(k)); }
      assert Get(n, Int(k)) == CanonOpt(Get(m, Int(k)));
    }
    forall k: nat | k in NumbersOf(m) ensures NumbersOf(n)[k] == NumbersOf(m)[k] {
      FlatCanon(m[Int(k)], Int(k));
      assert Get(n, Int(k)) == CanonOpt(Get(m, Int(k)));
    }
  }

  /** The members of getInfo that hold maps. */
  ghost predicate InfoListsAgree(m: Message, n: Message) {
    && Agree(Optional(n, Int(4), AsOptionMap), Optional(m, Int(4), AsOptionMap))
    && Agree(Optional(n, Int(10), AsAlgorithms), Optional(m, Int(10), AsAlgorithms))
    && AgreeUpTo(Optional(m, Int(19), AsMap), Optional(n, Int(19), AsMap), CanonOpt)
  }

  lemma {:induction false} InfoListsAlike(m: Message, n: Message)
    requires CanonMessage(m, n) && Clean(m)
    ensures InfoListsAgree(m, n)
  {
    if Int(4) in m { OptionMapCanon(m[Int(4)], Int(4)); }
    OptionalAgrees(m, n, Int(4), AsOptionMap);
    if Int(10) in m { NestedCanon(m[Int(10)], Int(10)); }
    OptionalAgrees(m, n, Int(10), AsAlgorithms);
    assert Get(n, Int(19)) == CanonOpt(Get(m, Int(19)));
  }

  /** Its other members. */
  ghost predicate InfoFlatAgree(m: Message, n: Message) {
    && Agree(Required(n, Int(1), AsTexts), Required(m, Int(1), AsTexts))
    && Agree(Required(n, Int(3), AsBytes), Required(m, Int(3), AsBytes))
    && Agree(Optional(n, Int(2), AsTexts), Optional(m, Int(2), AsTexts))
    && Agree(Optional(n, Int(6), AsProtocols), Optional(m, Int(6), AsProtocols))
    && Agree(Optional(n, Int(9), AsTexts), Optional(m, Int(9), AsTexts))
    && Agree(Optional(n, Int(12), AsBool), Optional(m, Int(12), AsBool))
    && Agree(Optional(n, Int(21), AsUints), Optional(m, Int(21), AsUints))
  }

  lemma {:induction false} InfoFlatAlike(m: Message, n: Message)
    requires CanonMessage(m, n)
    ensures InfoFlatAgree(m, n)
  {
    FlatMember(m, n, Int(1));
    FlatMember(m, n, Int(3));
    FlatMember(m, n, Int(2));
    FlatMember(m, n, Int(6));
    FlatMember(m, n, Int(9));
    FlatMember(m, n, Int(12));
    FlatMember(m, n, Int(21));
  }

  lemma {:induction false} InfoBuiltAlike(m: Message, n: Message)
    requires CanonMessage(m, n) && Clean(m)
    ensures AgreeUpTo(BuildInfo(m), BuildInfo(n), CanonInfo)
  {
    InfoFlatAlike(m, n);
    InfoListsAlike(m, n);
    NumbersAlike(m, n);
    InfoCollected(m, n);
    if CollectInfo(m).Ok? { CanonValid(CollectInfo(m).value); }
  }

  /** Members that agree make infos that agree. */
  lemma {:induction false} InfoCollected(m: Message, n: Message)
    requires InfoFlatAgree(m, n) && InfoListsAgree(m, n) && NumbersOf(n) == NumbersOf(m)
    ensures AgreeUpTo(CollectInfo(m), CollectInfo(n), CanonInfo)
  {
  }

  /** Validation does not look at what is uninterpreted. */
  lemma {:induction false} CanonValid(i: Info)
    ensures Fault(CanonInfo(i)) == Fault(i)
  {
  }

  lemma {:induction false} InfoCanon(v: Value)
    requires NoDuplicates(v)
    ensures AgreeUpTo(InfoFrom(v), InfoFrom(Canon(v)), CanonInfo)
  {
    if v.Map? {
      forall i | 0 <= i < |v.entries| { InfoCheckKept(v.entries[i]); }
      ParseCanon(InfoCheck, v.entries);
      if Parse(InfoCheck, v.entries).Ok? {
        InfoBuiltAlike(Parse(InfoCheck, v.entries).value, Parse(InfoCheck, Canon(v).entries).value);
      }
    }
  }

  lemma {:induction false} PinResponseCheckKept(e: Entry)
    ensures CheckKept(PinResponseCheck, e)
  {
    CanonPlain(e.key);
    FlatCanon(e.val, e.key);
  }

  lemma {:induction false} PinResponseMembersAlike(m: Message, n: Message)
    requires CanonMessage(m, n)
    ensures AgreeUpTo(Optional(m, Int(1), AsAny), Optional(n, Int(1), AsAny), CanonOpt)
    ensures Agree(Optional(n, Int(2), AsBytes), Optional(m, Int(2), AsBytes))
    ensures Agree(Optional(n, Int(3), AsU8), Optional(m, Int(3), AsU8))
    ensures Agree(Optional(n, Int(5), AsU8), Optional(m, Int(5), AsU8))
  {
    assert Get(n, Int(1)) == CanonOpt(Get(m, Int(1)));
    FlatMember(m, n, Int(2));
    FlatMember(m, n, Int(3));
    FlatMember(m, n, Int(5));
  }

  lemma {:induction false} PinResponseCanon(v: Value)
    requires NoDuplicates(v)
    ensures AgreeUpTo(PinResponseFrom(v), PinResponseFrom(Canon(v)), CanonPinResponse)
  {
    if v.Map? {
      forall i | 0 <= i < |v.entries| { PinResponseCheckKept(v.entries[i]); }
      ParseCanon(PinResponseCheck, v.entries);
      if Parse(PinResponseCheck, v.entries).Ok? {
        PinResponseMembersAlike(Parse(PinResponseCheck, v.entries).value,
                                Parse(PinResponseCheck, Canon(v).entries).value);
      }
    }
  }

  /** Two values that differ only in how their maps are ordered are the same getAssertion request or response. */
  lemma {:induction false} AssertionReordered(v: Value, w: Value)
    requires Reordered(v, w) && NoDuplicates(v)
    ensures RequestFrom(v).Ok? <==> RequestFrom(w).Ok?
    ensures RequestFrom(v).Ok? ==> CanonRequest(RequestFrom(v).value) == CanonRequest(RequestFrom(w).value)
    ensures ResponseFrom(v).Ok? || ResponseFrom(w).Ok? ==> ResponseFrom(v) == ResponseFrom(w)
  {
    ReorderedAlike(v, w);
    RequestCanon(v);
    RequestCanon(w);
    ResponseCanon(v);
    ResponseCanon(w);
  }

  /** And the same getInfo or clientPIN response. */
  lemma {:induction false} InfoReordered(v: Value, w: Value)
    requires Reordered(v, w) && NoDuplicates(v)
    ensures InfoFrom(v).Ok? <==> InfoFrom(w).Ok?
    ensures InfoFrom(v).Ok? ==> CanonInfo(InfoFrom(v).value) == CanonInfo(InfoFrom(w).value)
    ensures PinResponseFrom(v).Ok? <==> PinResponseFrom(w).Ok?
    ensures PinResponseFrom(v).Ok? ==>
              CanonPinResponse(PinResponseFrom(v).value) == CanonPinResponse(PinResponseFrom(w).value)
  {
    ReorderedAlike(v, w);
    InfoCanon(v);
    InfoCanon(w);
    PinResponseCanon(v);
    PinResponseCanon(w);
  }
}
