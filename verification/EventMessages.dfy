// What an event signature covers, and why the covered text cannot be read two ways.
module EventMessages {
  import opened Text
  import opened CanonicalJson

  // A row of the event log as it is served. `sig` and `prevHash` may be NULL.
  datatype Event = Event(
    eventId: string, eventType: string, seqNo: int, tsMs: int, nodeId: string,
    payload: Json, prevHash: Option<string>, sig: Option<string>, serviceId: Option<string>)

  // SHA-256 as hex text, Ed25519 signing under a key (None when the key is malformed),
  // and verification under the directory's public key. Nothing is assumed of them here.
  datatype Crypto = Crypto(
    hash: string -> string,
    sign: (string, string) -> Option<string>,
    verify: (string, string) -> bool)

  const GENESIS_ROOT := "c44802bedf3e63b5a3f1634c5d19263634f92f26dd15401b09b06dd53a80cf9d"
  const V2_DOMAIN := "iicp-event-v2"

  // The hash a successor carries for a predecessor signature; an absent or empty
  // signature restarts the chain.
  function PrevHashFrom(hash: string -> string, prevSig: Option<string>): string {
    if prevSig.Some? && prevSig.value != "" then hash(prevSig.value) else GENESIS_ROOT
  }

  function V1Preimage(
      eventId: string, eventType: string, seqNo: int, tsMs: int, payloadHash: string, prevHash: string): string {
    eventId + ":" + (eventType + ":" + (Decimal(seqNo) + ":" + (Decimal(tsMs) + ":" + (payloadHash + ":" + prevHash))))
  }

  function V2Preimage(
      serviceId: string, eventId: string, eventType: string, seqNo: int, tsMs: int, payloadHash: string,
      prevHash: string): string {
    V2_DOMAIN + ":" + (serviceId + ":" + V1Preimage(eventId, eventType, seqNo, tsMs, payloadHash, prevHash))
  }

  predicate ServiceIdStart(ch: char) {
    'a' <= ch <= 'z' || '0' <= ch <= '9'
  }

  predicate ValidServiceId(s: string) {
    && 1 <= |s| <= 64
    && ServiceIdStart(s[0])
    && forall i :: 0 <= i < |s| ==> ServiceIdStart(s[i]) || s[i] == '.' || s[i] == '_' || s[i] == '-'
  }

  function EventMessage(c: Crypto, e: Event, prevHash: string): string {
    c.hash(V1Preimage(e.eventId, e.eventType, e.seqNo, e.tsMs, c.hash(Canonical(e.payload)), prevHash))
  }

  function EventMessageWithServiceId(c: Crypto, serviceId: string, e: Event, prevHash: string): Option<string> {
    if !ValidServiceId(serviceId) then None
    else
      Some(c.hash(V2Preimage(serviceId, e.eventId, e.eventType, e.seqNo, e.tsMs, c.hash(Canonical(e.payload)),
        prevHash)))
  }

  // The text the auditor hashes for an event: V2 as soon as a service id is present.
  function SigningPreimage(c: Crypto, e: Event): string {
    var payloadHash := c.hash(Canonical(e.payload));
    var prev := if e.prevHash.Some? && e.prevHash.value != "" then e.prevHash.value else GENESIS_ROOT;
    if e.serviceId.Some?
    then V2Preimage(e.serviceId.value, e.eventId, e.eventType, e.seqNo, e.tsMs, payloadHash, prev)
    else V1Preimage(e.eventId, e.eventType, e.seqNo, e.tsMs, payloadHash, prev)
  }

  // The auditor hashes exactly what the directory signs, for either version; a service id
  // the directory refuses has no message.
  lemma AuditorHashesTheMessage(c: Crypto, e: Event, prev: string)
    requires prev != "" && e.prevHash == Some(prev)
    ensures e.serviceId.None? ==> c.hash(SigningPreimage(c, e)) == EventMessage(c, e, prev)
    ensures e.serviceId.Some? && ValidServiceId(e.serviceId.value)
      ==> EventMessageWithServiceId(c, e.serviceId.value, e, prev) == Some(c.hash(SigningPreimage(c, e)))
    ensures e.serviceId.Some? && !ValidServiceId(e.serviceId.value)
      ==> EventMessageWithServiceId(c, e.serviceId.value, e, prev) == None
  {
  }

  // A V1 text determines its six fields.
  lemma V1Determines(
    id: string, ty: string, n: int, ts: int, ph: string, prev: string,
    id': string, ty': string, n': int, ts': int, ph': string, prev': string)
    requires ColonFree(id) && ColonFree(ty) && ColonFree(ph) && ColonFree(id') && ColonFree(ty') && ColonFree(ph')
    requires V1Preimage(id, ty, n, ts, ph, prev) == V1Preimage(id', ty', n', ts', ph', prev')
    ensures id == id' && ty == ty' && n == n' && ts == ts' && ph == ph' && prev == prev'
  {
    var x4, y4 := ph + ":" + prev, ph' + ":" + prev';
    var x3, y3 := Decimal(ts) + ":" + x4, Decimal(ts') + ":" + y4;
    var x2, y2 := Decimal(n) + ":" + x3, Decimal(n') + ":" + y3;
    SplitAtColon(id, ty + ":" + x2, id', ty' + ":" + y2);
    SplitAtColon(ty, x2, ty', y2);
    DecimalColonFree(n);
    DecimalColonFree(n');
    DecimalColonFree(ts);
    DecimalColonFree(ts');
    SplitAtColon(Decimal(n), x3, Decimal(n'), y3);
    SplitAtColon(Decimal(ts), x4, Decimal(ts'), y4);
    SplitAtColon(ph, prev, ph', prev');
    DecimalInjective(n, n');
    DecimalInjective(ts, ts');
  }

  // A V2 text determines its seven fields.
  lemma V2Determines(
    svc: string, id: string, ty: string, n: int, ts: int, ph: string, prev: string,
    svc': string, id': string, ty': string, n': int, ts': int, ph': string, prev': string)
    requires ValidServiceId(svc) && ValidServiceId(svc')
    requires ColonFree(id) && ColonFree(ty) && ColonFree(ph) && ColonFree(id') && ColonFree(ty') && ColonFree(ph')
    requires V2Preimage(svc, id, ty, n, ts, ph, prev) == V2Preimage(svc', id', ty', n', ts', ph', prev')
    ensures svc == svc' && id == id' && ty == ty' && n == n' && ts == ts' && ph == ph' && prev == prev'
  {
    var v, v' := V1Preimage(id, ty, n, ts, ph, prev), V1Preimage(id', ty', n', ts', ph', prev');
    SplitAtColon(V2_DOMAIN, svc + ":" + v, V2_DOMAIN, svc' + ":" + v');
    SplitAtColon(svc, v, svc', v');
    V1Determines(id, ty, n, ts, ph, prev, id', ty', n', ts', ph', prev');
  }

  // No V1 text is a V2 text: where V1 has its 64-digit payload hash, V2 has a 64-bit number.
  lemma V1IsNotV2(
    id: string, ty: string, n: int, ts: int, ph: string, prev: string,
    svc: string, id': string, ty': string, n': int, ts': int, ph': string, prev': string)
    requires ValidServiceId(svc) && InI64(n') && |ph| == 64
    requires ColonFree(id) && ColonFree(ty) && ColonFree(ph) && ColonFree(id') && ColonFree(ty')
    ensures V1Preimage(id, ty, n, ts, ph, prev) != V2Preimage(svc, id', ty', n', ts', ph', prev')
  {
    if V1Preimage(id, ty, n, ts, ph, prev) == V2Preimage(svc, id', ty', n', ts', ph', prev') {
      var x4, y6 := ph + ":" + prev, Decimal(ts') + ":" + (ph' + ":" + prev');
      var x3, y5 := Decimal(ts) + ":" + x4, Decimal(n') + ":" + y6;
      var x2, y4 := Decimal(n) + ":" + x3, ty' + ":" + y5;
      DecimalColonFree(n);
      DecimalColonFree(ts);
      DecimalColonFree(n');
      SplitAtColon(id, ty + ":" + x2, V2_DOMAIN, svc + ":" + (id' + ":" + y4));
      SplitAtColon(ty, x2, svc, id' + ":" + y4);
      SplitAtColon(Decimal(n), x3, id', y4);
      SplitAtColon(Decimal(ts), x4, ty', y5);
      SplitAtColon(ph, prev, Decimal(n'), y6);
      DecimalI64Length(n');
      assert false;
    }
  }

  // ---- Reading the fields back ----

  // A text cut at its colons.
  ghost function Parts(s: string): (parts: seq<string>)
    ensures parts != []
  {
    if s == "" then [""]
    else
      var rest := Parts(s[1..]);
      if s[0] == ':' then [""] + rest else [[s[0]] + rest[0]] + rest[1..]
  }

  lemma {:induction false} PartsOfField(a: string, rest: string)
    requires ColonFree(a)
    ensures Parts(a + ":" + rest) == [a] + Parts(rest)
  {
    var s := a + ":" + rest;
    if a == "" {
      assert s[1..] == rest;
    } else {
      assert s[1..] == a[1..] + ":" + rest;
      PartsOfField(a[1..], rest);
      assert [s[0]] + a[1..] == a;
    }
  }

  // The V1 text, cut at its colons, is id, type, number, time, payload digest and link, in
  // this order.
  lemma V1Splits(id: string, ty: string, n: int, ts: int, ph: string, prev: string)
    requires ColonFree(id) && ColonFree(ty) && ColonFree(ph)
    ensures Parts(V1Preimage(id, ty, n, ts, ph, prev)) == [id, ty, Decimal(n), Decimal(ts), ph] + Parts(prev)
  {
    DecimalColonFree(n);
    DecimalColonFree(ts);
    PartsOfThree(Decimal(n), Decimal(ts), ph, prev);
    PartsOfTwo(id, ty, Decimal(n) + ":" + (Decimal(ts) + ":" + (ph + ":" + prev)));
  }

  lemma PartsOfTwo(a: string, b: string, rest: string)
    requires ColonFree(a) && ColonFree(b)
    ensures Parts(a + ":" + (b + ":" + rest)) == [a, b] + Parts(rest)
  {
    PartsOfField(b, rest);
    PartsOfField(a, b + ":" + rest);
  }

  lemma PartsOfThree(a: string, b: string, c: string, rest: string)
    requires ColonFree(a) && ColonFree(b) && ColonFree(c)
    ensures Parts(a + ":" + (b + ":" + (c + ":" + rest))) == [a, b, c] + Parts(rest)
  {
    PartsOfTwo(b, c, rest);
    PartsOfField(a, b + ":" + (c + ":" + rest));
  }

  // The V2 text has the domain and the service before them.
  lemma V2Splits(svc: string, id: string, ty: string, n: int, ts: int, ph: string, prev: string)
    requires ValidServiceId(svc) && ColonFree(id) && ColonFree(ty) && ColonFree(ph)
    ensures Parts(V2Preimage(svc, id, ty, n, ts, ph, prev))
            == ["iicp-event-v2", svc, id, ty, Decimal(n), Decimal(ts), ph] + Parts(prev)
  {
    var v1 := V1Preimage(id, ty, n, ts, ph, prev);
    V1Splits(id, ty, n, ts, ph, prev);
    PartsOfTwo(V2_DOMAIN, svc, v1);
  }

  // The link an event's text ends in: the chain's root when it has none.
  function LinkOf(e: Event): string {
    if e.prevHash.None? || e.prevHash.value == "" then GENESIS_ROOT else e.prevHash.value
  }

  // The text hashed for an event has its fields in this order, behind the domain and the
  // service if there is one.
  lemma PreimageSplits(c: Crypto, e: Event)
    requires ColonFree(e.eventId) && ColonFree(e.eventType) && ColonFree(c.hash(Canonical(e.payload)))
    requires e.serviceId.Some? ==> ValidServiceId(e.serviceId.value)
    ensures var parts := Parts(SigningPreimage(c, e));
            var fields := [e.eventId, e.eventType, Decimal(e.seqNo), Decimal(e.tsMs), c.hash(Canonical(e.payload))];
            if e.serviceId.None? then parts == fields + Parts(LinkOf(e))
            else parts == ["iicp-event-v2", e.serviceId.value] + fields + Parts(LinkOf(e))
  {
    var ph, link := c.hash(Canonical(e.payload)), LinkOf(e);
    if e.serviceId.None? {
      V1Splits(e.eventId, e.eventType, e.seqNo, e.tsMs, ph, link);
    } else {
      V2Splits(e.serviceId.value, e.eventId, e.eventType, e.seqNo, e.tsMs, ph, link);
      PreimageOfService(c, e);
      assert ["iicp-event-v2", e.serviceId.value] + [e.eventId, e.eventType, Decimal(e.seqNo), Decimal(e.tsMs), ph]
        == ["iicp-event-v2", e.serviceId.value, e.eventId, e.eventType, Decimal(e.seqNo), Decimal(e.tsMs), ph];
    }
  }

  lemma PreimageOfService(c: Crypto, e: Event)
    requires e.serviceId.Some?
    ensures SigningPreimage(c, e) == V2Preimage(e.serviceId.value, e.eventId, e.eventType, e.seqNo, e.tsMs,
                                                c.hash(Canonical(e.payload)), LinkOf(e))
  {
  }

  // Service ids are 1 to 64 lower-case letters, digits, dots, underscores and dashes, the
  // first a letter or a digit.
  lemma ServiceIdsAre(s: string)
    ensures ValidServiceId(s) <==>
            && 1 <= |s| <= 64 && s[0] in "abcdefghijklmnopqrstuvwxyz0123456789"
            && forall c :: c in s ==> c in "abcdefghijklmnopqrstuvwxyz0123456789._-"
  {
    forall c: char {
      ServiceIdChar(c);
    }
    assert forall i :: 0 <= i < |s| ==> s[i] in s;
  }

  lemma ServiceIdChar(c: char)
    ensures ServiceIdStart(c) <==> c in "abcdefghijklmnopqrstuvwxyz0123456789"
    ensures ServiceIdStart(c) || c == '.' || c == '_' || c == '-' <==> c in "abcdefghijklmnopqrstuvwxyz0123456789._-"
  {
  }
}
