/** The replay window of the IPC bridge: a packet is fresh for a while around
    its timestamp, its id is remembered for a while after its arrival, and the
    two durations decide whether a packet can be accepted twice. */
module Ipc {
  import opened Prelude

  const FRESHNESS := 5.0
  const NONCE_LIFETIME := 10.0
  const NONCE_CAP := 1000
  const QUEUE_CAP := 100

  // ---------- packets ----------

  /** What the payload text decodes to. */
  datatype Kind = NotJson | NotObject | Object

  datatype Payload = Payload(text: string, kind: Kind)

  /** Signatures are symbolic: they verify for the payload and secret they were
      made from and for nothing else. */
  datatype Signature = Signed(payload: Payload, secret: string) | Other(text: string)

  datatype Packet = Packet(ts: real, id: Option<string>, payload: Option<Payload>, sig: Option<Signature>)

  datatype Raw = Undecodable | Decoded(packet: Packet)

  /** Remembered ids with the time each expires. */
  type Seen = map<Option<string>, real>

  datatype Arrival = Arrival(now: real, raw: Raw)

  /** The durations and the capacity that govern the window. */
  datatype Limits = Limits(freshness: real, lifetime: real, cap: nat)

  function Shipped(): Limits {
    Limits(FRESHNESS, NONCE_LIFETIME, NONCE_CAP)
  }

  predicate Fresh(l: Limits, p: Packet, now: real) {
    -l.freshness <= now - p.ts <= l.freshness
  }

  predicate Authentic(p: Packet, secret: string) {
    p.payload.Some? && p.sig.Some? && p.sig.value == Signed(p.payload.value, secret)
  }

  predicate Usable(p: Packet, secret: string) {
    Authentic(p, secret) && p.payload.value.kind == Object
  }

  function Cleaned(seen: Seen, now: real): Seen {
    map id | id in seen && now <= seen[id] :: seen[id]
  }

  /** The id of a fresh, new packet is remembered while there is room, whether or
      not the packet then proves authentic. */
  predicate Registers(l: Limits, seen: Seen, a: Arrival) {
    && a.raw.Decoded? && Fresh(l, a.raw.packet, a.now)
    && a.raw.packet.id !in Cleaned(seen, a.now) && |Cleaned(seen, a.now)| < l.cap
  }

  function After(l: Limits, seen: Seen, a: Arrival): Seen {
    if a.raw.Undecodable? || !Fresh(l, a.raw.packet, a.now) then seen
    else if Registers(l, seen, a) then Cleaned(seen, a.now)[a.raw.packet.id := a.now + l.lifetime]
    else Cleaned(seen, a.now)
  }

  predicate Accepts(l: Limits, secret: string, seen: Seen, a: Arrival) {
    Registers(l, seen, a) && Usable(a.raw.packet, secret)
  }

  // ---------- runs ----------

  function SeenAfter(l: Limits, es: seq<Arrival>, n: nat): Seen
    requires n <= |es|
  {
    if n == 0 then map[] else After(l, SeenAfter(l, es, n - 1), es[n - 1])
  }

  predicate Registered(l: Limits, es: seq<Arrival>, k: nat)
    requires k < |es|
  {
    Registers(l, SeenAfter(l, es, k), es[k])
  }

  predicate Accepted(l: Limits, secret: string, es: seq<Arrival>, k: nat)
    requires k < |es|
  {
    Accepts(l, secret, SeenAfter(l, es, k), es[k])
  }

  predicate ClockAdvances(es: seq<Arrival>) {
    forall i, j :: 0 <= i < j < |es| ==> es[i].now <= es[j].now
  }

  /** The same message, as its sender stamped and numbered it. */
  predicate SamePacket(a: Raw, b: Raw) {
    a.Decoded? && b.Decoded? && a.packet.id == b.packet.id && a.packet.ts == b.packet.ts
  }

  // ---------- no replay ----------

  /** A remembered id stays remembered until it expires. */
  lemma StaysRemembered(l: Limits, es: seq<Arrival>, i: nat, j: nat)
    requires ClockAdvances(es) && i < j < |es| && Registered(l, es, i)
    requires es[j].now <= es[i].now + l.lifetime
    ensures var id := es[i].raw.packet.id; id in Cleaned(SeenAfter(l, es, j), es[j].now)
  {
    var id, expiry := es[i].raw.packet.id, es[i].now + l.lifetime;
    var k := i + 1;
    while k < j
      invariant i < k <= j
      invariant id in SeenAfter(l, es, k) && SeenAfter(l, es, k)[id] == expiry
    {
      assert es[k].now <= es[j].now;
      assert id in Cleaned(SeenAfter(l, es, k), es[k].now);
      k := k + 1;
    }
  }

  /** With a lifetime of twice the freshness window no packet is accepted twice. */
  lemma LongEnoughLifetime(l: Limits, secret: string, es: seq<Arrival>, i: nat, j: nat)
    requires l.lifetime >= 2.0 * l.freshness
    requires ClockAdvances(es) && i < j < |es|
    requires Accepted(l, secret, es, i) && Accepted(l, secret, es, j)
    ensures !SamePacket(es[i].raw, es[j].raw)
  {
    if es[j].now <= es[i].now + l.lifetime { StaysRemembered(l, es, i, j); }
  }

  ghost predicate ReplayFree(l: Limits, secret: string) {
    forall es: seq<Arrival>, i: nat, j: nat
      | ClockAdvances(es) && i < j < |es| && Accepted(l, secret, es, i) && Accepted(l, secret, es, j) ::
      !SamePacket(es[i].raw, es[j].raw)
  }

  /** The first packet arrives as early as it is fresh, the second as late. */
  lemma ShortLifetimeIsReplayable(l: Limits, secret: string)
    requires l.freshness >= 0.0 && l.lifetime < 2.0 * l.freshness && l.cap > 0
    ensures !ReplayFree(l, secret)
  {
    var payload := Payload("{}", Object);
    var raw := Decoded(Packet(l.freshness, Some("id"), Some(payload), Some(Signed(payload, secret))));
    var es := [Arrival(0.0, raw), Arrival(2.0 * l.freshness, raw)];
    assert SeenAfter(l, es, 0) == map[];
    assert Cleaned(map[], 0.0) == map[];
    assert Accepted(l, secret, es, 0);
    assert SeenAfter(l, es, 1) == map[Some("id") := l.lifetime];
    assert Cleaned(SeenAfter(l, es, 1), es[1].now) == map[];
    assert Accepted(l, secret, es, 1);
    assert ClockAdvances(es) && SamePacket(es[0].raw, es[1].raw);
  }

  /** The window is replay-free exactly when ids live at least twice as long as
      packets are fresh on either side of their timestamp. */
  lemma ReplayFreeIff(l: Limits, secret: string)
    requires l.freshness >= 0.0 && l.cap > 0
    ensures ReplayFree(l, secret) <==> l.lifetime >= 2.0 * l.freshness
  {
    if l.lifetime >= 2.0 * l.freshness {
      forall es: seq<Arrival>, i: nat, j: nat
        | ClockAdvances(es) && i < j < |es| && Accepted(l, secret, es, i) && Accepted(l, secret, es, j)
        ensures !SamePacket(es[i].raw, es[j].raw)
      {
        LongEnoughLifetime(l, secret, es, i, j);
      }
    } else {
      ShortLifetimeIsReplayable(l, secret);
    }
  }

  /** The shipped durations match exactly: with the shipped freshness no shorter
      lifetime would do. */
  lemma ShippedWindowIsReplayFree(secret: string, lifetime: real)
    ensures ReplayFree(Shipped(), secret)
    ensures ReplayFree(Shipped().(lifetime := lifetime), secret) <==> lifetime >= NONCE_LIFETIME
  {
    hide ReplayFree;
    ReplayFreeIff(Shipped(), secret);
    ReplayFreeIff(Shipped().(lifetime := lifetime), secret);
  }

  // ---------- a payload under another stamp ----------

  /** Only the payload is signed: a payload accepted before is accepted again, under
      whatever id and timestamp, exactly when the new timestamp is fresh, the new
      id is not remembered, and there is room. */
  lemma PayloadIsAcceptedAgainIff(l: Limits, secret: string, es: seq<Arrival>, i: nat, j: nat)
    requires i < j < |es| && Accepted(l, secret, es, i) && es[j].raw.Decoded?
    requires es[j].raw.packet.payload == es[i].raw.packet.payload && es[j].raw.packet.sig == es[i].raw.packet.sig
    ensures var p, remembered := es[j].raw.packet, Cleaned(SeenAfter(l, es, j), es[j].now);
      Accepted(l, secret, es, j) <==> Fresh(l, p, es[j].now) && p.id !in remembered && |remembered| < l.cap
  {
    hide SeenAfter;
    assert Usable(es[i].raw.packet, secret) && Usable(es[j].raw.packet, secret);
  }

  /** One signed payload, sent twice under different ids. */
  function SentTwice(payload: Payload, secret: string): seq<Arrival> {
    var sig := Some(Signed(payload, secret));
    [Arrival(0.0, Decoded(Packet(0.0, Some("a"), Some(payload), sig))),
     Arrival(1.0, Decoded(Packet(1.0, Some("b"), Some(payload), sig)))]
  }

  /** Both are accepted. */
  lemma OnePayloadAcceptedTwice(payload: Payload, secret: string)
    requires payload.kind == Object
    ensures var es := SentTwice(payload, secret);
      ClockAdvances(es) && Accepted(Shipped(), secret, es, 0) && Accepted(Shipped(), secret, es, 1)
  {
    var es := SentTwice(payload, secret);
    var seen := SeenAfter(Shipped(), es, 1);
    assert SeenAfter(Shipped(), es, 0) == map[];
    assert Cleaned(map[], 0.0) == map[];
    assert seen == map[Some("a") := NONCE_LIFETIME];
    assert Cleaned(seen, 1.0) == seen;
    assert "a"[0] != "b"[0];
  }

  // ---------- what is remembered, by history alone ----------

  /** Some earlier arrival registered `id` and has not expired at `now`. */
  ghost predicate LiveByHistory(l: Limits, es: seq<Arrival>, n: nat, id: Option<string>, now: real)
    requires n <= |es|
  {
    exists k: nat :: k < n && Registered(l, es, k) && es[k].raw.packet.id == id && now <= es[k].now + l.lifetime
  }

  /** `id` was registered before `n` and expires at `expiry`. */
  ghost predicate Origin(l: Limits, es: seq<Arrival>, n: nat, id: Option<string>, expiry: real)
    requires n <= |es|
  {
    exists k: nat ::
      k < n && Registered(l, es, k) && es[k].raw.packet.id == id && expiry == es[k].now + l.lifetime
  }

  /** One arrival drops only what has expired and adds only what it registers. */
  lemma AfterFacts(l: Limits, seen: Seen, a: Arrival, id: Option<string>)
    ensures var seen' := After(l, seen, a);
      && (id in seen' ==>
            || (id in seen && seen'[id] == seen[id])
            || (Registers(l, seen, a) && id == a.raw.packet.id && seen'[id] == a.now + l.lifetime))
      && (id in seen && !(id in seen' && seen'[id] == seen[id]) ==> seen[id] < a.now)
      && (Registers(l, seen, a) && id == a.raw.packet.id ==> id in seen' && seen'[id] == a.now + l.lifetime)
  {
  }

  lemma {:induction false} RememberedWasRegistered(l: Limits, es: seq<Arrival>, n: nat, id: Option<string>)
    requires n <= |es| && id in SeenAfter(l, es, n)
    ensures Origin(l, es, n, id, SeenAfter(l, es, n)[id])
  {
    var before, a := SeenAfter(l, es, n - 1), es[n - 1];
    AfterFacts(l, before, a, id);
    hide After;
    if id in before && SeenAfter(l, es, n)[id] == before[id] {
      RememberedWasRegistered(l, es, n - 1, id);
      var k: nat :|
        k < n - 1 && Registered(l, es, k) && es[k].raw.packet.id == id && before[id] == es[k].now + l.lifetime;
      assert Origin(l, es, n, id, before[id]);
    } else {
      assert Registered(l, es, n - 1);
    }
  }

  /** A registration is remembered, or has expired by the latest arrival. */
  lemma {:induction false} RegisteredIsRememberedOrExpired(l: Limits, es: seq<Arrival>, n: nat, k: nat)
    requires ClockAdvances(es) && k < n <= |es| && Registered(l, es, k)
    ensures var id, expiry := es[k].raw.packet.id, es[k].now + l.lifetime;
      (id in SeenAfter(l, es, n) && SeenAfter(l, es, n)[id] >= expiry) || expiry < es[n - 1].now
  {
    AfterFacts(l, SeenAfter(l, es, n - 1), es[n - 1], es[k].raw.packet.id);
    hide After;
    if k < n - 1 {
      RegisteredIsRememberedOrExpired(l, es, n - 1, k);
      assert es[n - 2].now <= es[n - 1].now;
    }
  }

  /** The map after cleaning is exactly the history of unexpired registrations. */
  lemma RememberedIsHistory(l: Limits, es: seq<Arrival>, n: nat, id: Option<string>, now: real)
    requires ClockAdvances(es) && n <= |es| && (n > 0 ==> es[n - 1].now <= now)
    ensures id in Cleaned(SeenAfter(l, es, n), now) <==> LiveByHistory(l, es, n, id, now)
  {
    var seen := SeenAfter(l, es, n);
    if id in Cleaned(seen, now) {
      RememberedWasRegistered(l, es, n, id);
      var k: nat :| k < n && Registered(l, es, k) && es[k].raw.packet.id == id && seen[id] == es[k].now + l.lifetime;
    }
    if LiveByHistory(l, es, n, id, now) {
      var k: nat :|
        k < n && Registered(l, es, k) && es[k].raw.packet.id == id && now <= es[k].now + l.lifetime;
      RegisteredIsRememberedOrExpired(l, es, n, k);
    }
  }

  /** An id is registered exactly when its packet arrives within the freshness of
      its timestamp on either side, the id is not among the unexpired
      registrations, and fewer than `cap` ids are; the signature plays no part. */
  lemma RegisteredByHistory(l: Limits, es: seq<Arrival>, k: nat)
    requires ClockAdvances(es) && k < |es| && es[k].raw.Decoded?
    ensures var p, now := es[k].raw.packet, es[k].now;
      var live := set id | id in SeenAfter(l, es, k) && LiveByHistory(l, es, k, id, now);
      Registered(l, es, k) <==>
        && p.ts - l.freshness <= now <= p.ts + l.freshness
        && !LiveByHistory(l, es, k, p.id, now) && |live| < l.cap
  {
    var p, now := es[k].raw.packet, es[k].now;
    var cleaned := Cleaned(SeenAfter(l, es, k), now);
    RememberedIsHistory(l, es, k, p.id, now);
    forall id ensures id in cleaned <==> LiveByHistory(l, es, k, id, now) {
      RememberedIsHistory(l, es, k, id, now);
    }
    var live := set id | id in SeenAfter(l, es, k) && LiveByHistory(l, es, k, id, now);
    assert live == cleaned.Keys;
    assert |cleaned.Keys| == |cleaned|;
  }

  /** A packet is accepted exactly when its id is registered and its payload is an
      object signed with the secret. */
  lemma AcceptedByHistory(l: Limits, secret: string, es: seq<Arrival>, k: nat)
    requires ClockAdvances(es) && k < |es| && es[k].raw.Decoded?
    ensures var p, now := es[k].raw.packet, es[k].now;
      var live := set id | id in SeenAfter(l, es, k) && LiveByHistory(l, es, k, id, now);
      Accepted(l, secret, es, k) <==>
        && p.ts - l.freshness <= now <= p.ts + l.freshness
        && p.payload.Some? && p.payload.value.kind == Object && p.sig == Some(Signed(p.payload.value, secret))
        && !LiveByHistory(l, es, k, p.id, now) && |live| < l.cap
  {
    RegisteredByHistory(l, es, k);
    hide SeenAfter, LiveByHistory, Registers;
  }

  /** In no run is a packet accepted whose signature is missing, is made up, or was
      made from another payload or with another secret. */
  lemma ForgeryIsRefused(l: Limits, secret: string, es: seq<Arrival>, k: nat, payload: Payload, other: string)
    requires k < |es| && es[k].raw.Decoded?
    requires
      var sig := es[k].raw.packet.sig;
      || sig == None
      || sig.value.Other?
      || (sig == Some(Signed(payload, other)) && (other != secret || es[k].raw.packet.payload != Some(payload)))
    ensures !Accepted(l, secret, es, k)
  {
    hide SeenAfter, Registers;
  }

  lemma {:induction false} NeverOverCapacity(l: Limits, es: seq<Arrival>, n: nat)
    requires n <= |es|
    ensures |SeenAfter(l, es, n)| <= l.cap
  {
    if n > 0 {
      NeverOverCapacity(l, es, n - 1);
      CleanedIsSmaller(SeenAfter(l, es, n - 1), es[n - 1].now);
    }
  }

  lemma CleanedIsSmaller(seen: Seen, now: real)
    ensures |Cleaned(seen, now)| <= |seen|
  {
    var c := Cleaned(seen, now);
    assert c.Keys <= seen.Keys;
    SubsetSize(c.Keys, seen.Keys);
    assert |c.Keys| == |c| && |seen.Keys| == |seen|;
  }

  // ---------- the bridge ----------

  class Bridge {
    const secret: string
    var queue: seq<Raw>
    var seenIds: Seen

    constructor (secret: string)
      ensures this.secret == secret && queue == [] && seenIds == map[]
    {
      this.secret, queue, seenIds := secret, [], map[];
    }

    /** The listener drops what does not fit the queue. */
    method Enqueue(raw: Raw)
      modifies this`queue
      ensures queue == if |old(queue)| < QUEUE_CAP then old(queue) + [raw] else old(queue)
    {
      if |queue| < QUEUE_CAP { queue := queue + [raw]; }
    }

    method CleanupSeenIds(now: real)
      modifies this`seenIds
      ensures seenIds == Cleaned(old(seenIds), now)
    {
      var expired := set id | id in seenIds && now > seenIds[id];
      var left := expired;
      while left != {}
        invariant left <= expired
        invariant seenIds == map id | id in old(seenIds) && (id in left || id !in expired) :: old(seenIds)[id]
        decreases left
      {
        var id :| id in left;
        left := left - {id};
        seenIds := seenIds - {id};
      }
    }

    /** The next message, if the packet at the head of the queue is accepted. */
    method GetMessage(now: real) returns (message: Option<Packet>)
      modifies this
      ensures old(queue) == [] ==> message == None && seenIds == old(seenIds) && queue == []
      ensures old(queue) != [] ==>
        var a := Arrival(now, old(queue)[0]);
        && queue == old(queue)[1..]
        && seenIds == After(Shipped(), old(seenIds), a)
        && message == if Accepts(Shipped(), secret, old(seenIds), a) then Some(a.raw.packet) else None
      ensures message.Some? ==>
        && old(queue) != [] && old(queue)[0] == Decoded(message.value)
        && message.value.payload.Some? && message.value.payload.value.kind == Object
        && message.value.sig == Some(Signed(message.value.payload.value, secret))
        && message.value.ts - FRESHNESS <= now <= message.value.ts + FRESHNESS
    {
      if queue == [] { return None; }
      var raw := queue[0];
      queue := queue[1..];
      if raw.Undecodable? { return None; }
      var packet := raw.packet;
      var age := now - packet.ts;
      if (if age < 0.0 then -age else age) > FRESHNESS { return None; }
      CleanupSeenIds(now);
      if packet.id in seenIds { return None; }
      if |seenIds| >= NONCE_CAP { return None; }
      seenIds := seenIds[packet.id := now + NONCE_LIFETIME];
      if !Authentic(packet, secret) { return None; }
      if packet.payload.value.kind != Object { return None; }
      message := Some(packet);
    }
  }
}
