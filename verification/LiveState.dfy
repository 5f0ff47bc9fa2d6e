/**
 Live snapshot of a device: each field shows its latest value, held for a short
 while when a message omits it; a block that shows a held value is marked stale.
 */
module LiveState {
  import opened Basics

  const LIVE_VALUE_HOLD: Time := 15 * SECOND
  const MILLISECOND: Time := 1000

  datatype SensorField = Temperature | Humidity
  datatype EnergyField = Voltage | Current | Power | EnergyTotal | Frequency | PowerFactor
  datatype Channel = Power1 | Power2 | Power3 | Power4
  datatype Field = Sensor(sensor: SensorField) | Electrical(channel: Channel, energy: EnergyField)
  datatype Block = SensorBlock | ChannelBlock(channel: Channel)

  function BlockOf(f: Field): Block {
    match f
    case Sensor(_) => SensorBlock
    case Electrical(c, _) => ChannelBlock(c)
  }

  function FieldsOf(b: Block): seq<Field> {
    match b
    case SensorBlock => [Sensor(Temperature), Sensor(Humidity)]
    case ChannelBlock(c) =>
      [Electrical(c, Voltage), Electrical(c, Current), Electrical(c, Power),
       Electrical(c, EnergyTotal), Electrical(c, Frequency), Electrical(c, PowerFactor)]
  }

  const BLOCKS: seq<Block> := [SensorBlock, ChannelBlock(Power1), ChannelBlock(Power2),
      ChannelBlock(Power3), ChannelBlock(Power4)]

  lemma FieldsAreListed(b: Block, f: Field)
    ensures f in FieldsOf(b) <==> BlockOf(f) == b
  {
    var fields := FieldsOf(b);
    if BlockOf(f) == b {
      match f {
        case Sensor(s) => assert f == fields[if s == Temperature then 0 else 1];
        case Electrical(c, e) =>
          assert f == fields[match e case Voltage => 0 case Current => 1 case Power => 2
                                     case EnergyTotal => 3 case Frequency => 4 case PowerFactor => 5];
      }
    }
  }

  lemma FieldsAreDistinct(b: Block, i: nat)
    requires i < |FieldsOf(b)|
    ensures FieldsOf(b)[i] !in FieldsOf(b)[..i]
  {
    var fields := FieldsOf(b);
    forall j | 0 <= j < i
      ensures fields[j] != fields[i]
    {
    }
  }

  lemma EveryBlockIsListed(b: Block)
    ensures b in BLOCKS
  {
    var i := match b
      case SensorBlock => 0
      case ChannelBlock(c) => (match c case Power1 => 1 case Power2 => 2 case Power3 => 3 case Power4 => 4);
    assert BLOCKS[i] == b;
  }

  datatype Freshness = Fresh | Stale | Unavailable
  datatype Header = Header(freshness: Option<Freshness>, ageMs: Option<int>)

  /** A normalized message: its non-null values, and the headers of the blocks it has. */
  datatype RawMessage = RawMessage(values: map<Field, real>, headers: map<Block, Header>)
  type Message = m: RawMessage | SensorBlock in m.headers && forall f :: f in m.values ==> BlockOf(f) in m.headers
    witness RawMessage(map[], map[SensorBlock := Header(None, None)])

  datatype Snapshot = Snapshot(values: map<Field, real>, headers: map<Block, Header>)

  // ---- the whole history of a device -----------------------------------------

  datatype Reception = Reception(message: Message, at: Time)

  /** The latest non-null value ever received for a field, and when. */
  function Latest(history: seq<Reception>, f: Field): Option<(real, Time)> {
    if history == [] then None
    else
      var last := history[|history| - 1];
      if f in last.message.values then Some((last.message.values[f], last.at)) else Latest(history[..|history| - 1], f)
  }

  ghost predicate InOrder(history: seq<Reception>, now: Time) {
    history == [] || (InOrder(history[..|history| - 1], history[|history| - 1].at) && history[|history| - 1].at <= now)
  }

  lemma {:induction false} LatestIsPast(history: seq<Reception>, now: Time, f: Field)
    requires InOrder(history, now) && Latest(history, f).Some?
    ensures Latest(history, f).value.1 <= now
  {
    var last := history[|history| - 1];
    if f !in last.message.values {
      LatestIsPast(history[..|history| - 1], last.at, f);
    }
  }

  /** What the snapshot should show at an instant. */
  function Shown(history: seq<Reception>, f: Field, now: Time): Option<(real, Time)> {
    var latest := Latest(history, f);
    if latest.Some? && now - latest.value.1 <= LIVE_VALUE_HOLD then latest else None
  }

  /** Message i is the last to give the field a value. */
  ghost predicate IsLastWith(history: seq<Reception>, f: Field, i: nat) {
    && i < |history| && f in history[i].message.values
    && forall j :: i < j < |history| ==> f !in history[j].message.values
  }

  /** A field shows the value of the last message that gave one, for fifteen seconds from then. */
  lemma {:induction false} ShownIff(history: seq<Reception>, f: Field, now: Time, value: real, at: Time)
    ensures Shown(history, f, now) == Some((value, at))
       <==> exists i: nat :: IsLastWith(history, f, i) && history[i].at == at
                             && history[i].message.values[f] == value && now - at <= 15 * SECOND
  {
    if history != [] {
      var n := |history| - 1;
      if f in history[n].message.values {
        assert IsLastWith(history, f, n) && forall i: nat :: IsLastWith(history, f, i) ==> i == n;
      } else {
        ShownIff(history[..n], f, now, value, at);
        forall i: nat
          ensures IsLastWith(history, f, i) <==> IsLastWith(history[..n], f, i)
          ensures i < n ==> history[..n][i] == history[i]
        {
          assert forall j :: 0 <= j < n ==> history[..n][j] == history[j];
        }
      }
    }
  }

  /** The field shows a value of an earlier message. */
  predicate FromEarlier(history: seq<Reception>, message: Message, f: Field, now: Time) {
    f !in message.values && Shown(history, f, now).Some?
  }

  function AgeMs(at: Time, now: Time): int { (now - at) / MILLISECOND }

  /** The block shows some earlier value, and `ageMs` is the age of the oldest one. */
  ghost predicate HoldsFor(history: seq<Reception>, message: Message, b: Block, now: Time, ageMs: int) {
    && (exists f ::
         && BlockOf(f) == b && FromEarlier(history, message, f, now)
         && AgeMs(Shown(history, f, now).value.1, now) == ageMs)
    && forall f :: BlockOf(f) == b && FromEarlier(history, message, f, now) ==>
         AgeMs(Shown(history, f, now).value.1, now) <= ageMs
  }

  /** The snapshot a device deserves after its history, the last message being `message`, received now. */
  ghost predicate IsSnapshotOf(s: Snapshot, history: seq<Reception>, message: Message, now: Time) {
    && (forall f :: f in s.values <==> Shown(history, f, now).Some?)
    && (forall f :: f in s.values ==> s.values[f] == Shown(history, f, now).value.0)
    && forall b :: IsHeaderOf(s, history, message, b, now)
  }

  ghost predicate IsHeaderOf(s: Snapshot, history: seq<Reception>, message: Message, b: Block, now: Time) {
    if exists f :: BlockOf(f) == b && FromEarlier(history, message, f, now)
    then b in s.headers && s.headers[b].freshness == Some(Stale) && s.headers[b].ageMs.Some?
         && HoldsFor(history, message, b, now, s.headers[b].ageMs.value)
    else (b in s.headers <==> b in message.headers) && (b in message.headers ==> s.headers[b] == message.headers[b])
  }

  // ---- the cache -------------------------------------------------------------

  type Cache = map<Field, (real, Time)>

  /** The cache knows the latest value of every field, except values too old to be shown again. */
  ghost predicate Remembers(cached: Cache, history: seq<Reception>, now: Time) {
    forall f :: RemembersField(cached, history, now, f)
  }

  predicate RemembersField(cached: Cache, history: seq<Reception>, now: Time, f: Field) {
    if f in cached then Latest(history, f) == Some(cached[f]) else Shown(history, f, now) == None
  }

  function Retained(cached: Cache, given: map<Field, real>, f: Field, now: Time): Option<(real, Time)> {
    if f in given then Some((given[f], now))
    else if f in cached && 0 <= now - cached[f].1 <= LIVE_VALUE_HOLD then Some(cached[f])
    else None
  }

  /** One field: its value, the age of a value taken from the cache, and the cache afterwards. */
  method Retain(cached: Cache, f: Field, value: Option<real>, now: Time)
    returns (shown: Option<real>, fallbackAgeMs: Option<int>, cached': Cache)
    ensures var given: map<Field, real> := if value.Some? then map[f := value.value] else map[];
            var kept := Retained(cached, given, f, now);
            && shown == (if kept.Some? then Some(kept.value.0) else None)
            && fallbackAgeMs == (if value.None? && kept.Some? then Some(AgeMs(kept.value.1, now)) else None)
            && cached' == if kept.Some? then cached[f := kept.value] else cached - {f}
  {
    if value.Some? { return value, None, cached[f := (value.value, now)]; }
    if f !in cached { return None, None, cached; }
    var age := now - cached[f].1;
    if age < 0 || age > LIVE_VALUE_HOLD { return None, None, cached - {f}; }
    return Some(cached[f].0), Some(age / MILLISECOND), cached;
  }

  /** The field was handled: shown and cached exactly when it is retained. */
  predicate Handled(
    cached: Cache, given: map<Field, real>, f: Field, now: Time, cached': Cache, values: map<Field, real>)
  {
    var kept := Retained(cached, given, f, now);
    && (f in cached' <==> kept.Some?) && (f in values <==> kept.Some?)
    && (kept.Some? ==> cached'[f] == kept.value && values[f] == kept.value.0)
  }

  predicate Untouched(cached: Cache, f: Field, cached': Cache, values: map<Field, real>) {
    (f in cached' <==> f in cached) && (f in cached ==> cached'[f] == cached[f]) && f !in values
  }

  predicate FallsBack(cached: Cache, given: map<Field, real>, f: Field, now: Time) {
    f !in given && Retained(cached, given, f, now).Some?
  }

  /** The greatest age among the fields that fall back on the cache. */
  ghost predicate IsOldest(cached: Cache, given: map<Field, real>, fields: seq<Field>, now: Time, age: Option<int>) {
    && (age.Some? ==>
         exists f :: f in fields && FallsBack(cached, given, f, now) && AgeMs(cached[f].1, now) == age.value)
    && forall f :: f in fields && FallsBack(cached, given, f, now) ==> age.Some? && AgeMs(cached[f].1, now) <= age.value
  }

  method RetainBlock(cached: Cache, b: Block, given: map<Field, real>, now: Time)
    returns (cached': Cache, values: map<Field, real>, oldest: Option<int>)
    ensures forall f :: if BlockOf(f) == b then Handled(cached, given, f, now, cached', values)
              else Untouched(cached, f, cached', values)
    ensures IsOldest(cached, given, FieldsOf(b), now, oldest)
  {
    var fields := FieldsOf(b);
    cached', values, oldest := cached, map[], None;
    for i := 0 to |fields|
      invariant forall f :: if f in fields[..i] then Handled(cached, given, f, now, cached', values)
                  else Untouched(cached, f, cached', values)
      invariant IsOldest(cached, given, fields[..i], now, oldest)
    {
      var f := fields[i];
      assert fields[..i + 1] == fields[..i] + [f];
      FieldsAreDistinct(b, i);
      cached', values, oldest := RetainNext(cached, given, fields[..i], f, now, cached', values, oldest);
    }
    assert fields[..|fields|] == fields;
    forall f
      ensures f in fields <==> BlockOf(f) == b
    {
      FieldsAreListed(b, f);
    }
  }

  method RetainNext(
    ghost start: Cache, given: map<Field, real>, ghost done: seq<Field>, f: Field, now: Time,
    cached: Cache, values: map<Field, real>, oldest: Option<int>)
    returns (cached': Cache, values': map<Field, real>, oldest': Option<int>)
    requires f !in done
    requires forall g :: if g in done then Handled(start, given, g, now, cached, values)
               else Untouched(start, g, cached, values)
    requires IsOldest(start, given, done, now, oldest)
    ensures forall g :: if g in done || g == f then Handled(start, given, g, now, cached', values')
              else Untouched(start, g, cached', values')
    ensures IsOldest(start, given, done + [f], now, oldest')
  {
    var shown, fallback;
    shown, fallback, cached' := Retain(cached, f, if f in given then Some(given[f]) else None, now);
    values' := if shown.Some? then values[f := shown.value] else values;
    assert Untouched(start, f, cached, values);
    if fallback.Some? { assert FallsBack(start, given, f, now) && f in done + [f]; }
    oldest' := if fallback.Some? && (oldest.None? || oldest.value < fallback.value) then fallback else oldest;
  }

  // ---- one message -----------------------------------------------------------

  ghost predicate HeaderFollows(cached: Cache, message: Message, b: Block, now: Time, headers: map<Block, Header>) {
    if exists f :: BlockOf(f) == b && FallsBack(cached, message.values, f, now)
    then b in headers && headers[b].freshness == Some(Stale) && headers[b].ageMs.Some?
         && IsOldest(cached, message.values, FieldsOf(b), now, headers[b].ageMs)
    else (b in headers <==> b in message.headers) && (b in message.headers ==> headers[b] == message.headers[b])
  }

  ghost predicate BlockDone(cached: Cache, message: Message, b: Block, now: Time, cached': Cache, s: Snapshot) {
    && (forall f :: BlockOf(f) == b ==> Handled(cached, message.values, f, now, cached', s.values))
    && HeaderFollows(cached, message, b, now, s.headers)
  }

  ghost predicate BlockUntouched(cached: Cache, b: Block, cached': Cache, s: Snapshot) {
    (forall f :: BlockOf(f) == b ==> Untouched(cached, f, cached', s.values)) && b !in s.headers
  }

  method RetainRecentValues(cached: Cache, message: Message, now: Time) returns (cached': Cache, s: Snapshot)
    ensures forall b :: BlockDone(cached, message, b, now, cached', s)
  {
    cached', s := cached, Snapshot(map[], map[]);
    for i := 0 to |BLOCKS|
      invariant forall b :: if b in BLOCKS[..i] then BlockDone(cached, message, b, now, cached', s)
                  else BlockUntouched(cached, b, cached', s)
    {
      assert BLOCKS[..i + 1] == BLOCKS[..i] + [BLOCKS[i]];
      assert BLOCKS[i] !in BLOCKS[..i];
      cached', s := RetainNextBlock(cached, message, BLOCKS[..i], BLOCKS[i], now, cached', s);
    }
    forall b
      ensures b in BLOCKS[..|BLOCKS|]
    {
      EveryBlockIsListed(b);
    }
  }

  method RetainNextBlock(
    ghost start: Cache, message: Message, ghost done: seq<Block>, b: Block, now: Time, cached: Cache, s: Snapshot)
    returns (cached': Cache, s': Snapshot)
    requires b !in done
    requires forall c :: if c in done then BlockDone(start, message, c, now, cached, s)
               else BlockUntouched(start, c, cached, s)
    ensures forall c :: if c in done || c == b then BlockDone(start, message, c, now, cached', s')
              else BlockUntouched(start, c, cached', s')
  {
    var values, oldest;
    cached', values, oldest := RetainBlock(cached, b, message.values, now);
    assert BlockUntouched(start, b, cached, s);
    var headers := s.headers;
    if oldest.Some? {
      headers := headers[b := Header(Some(Stale), oldest)];
    } else if b in message.headers {
      headers := headers[b := message.headers[b]];
    }
    s' := Snapshot(s.values + values, headers);
    forall f
      ensures if BlockOf(f) == b then Handled(start, message.values, f, now, cached', s'.values)
                else Same(cached, s.values, f, cached', s'.values)
    {
      MergedField(start, cached, message.values, b, now, s.values, cached', values, f);
    }
    OldestOfBlock(start, cached, message, b, now, oldest, headers);
    forall c | c != b
      ensures if c in done then BlockDone(start, message, c, now, cached', s')
                else BlockUntouched(start, c, cached', s')
    {
      OtherBlockStays(start, message, c, now, cached, s, cached', s');
    }
  }

  predicate Same(cached: Cache, values: map<Field, real>, f: Field, cached': Cache, values': map<Field, real>) {
    && (f in cached' <==> f in cached) && (f in cached ==> cached'[f] == cached[f])
    && (f in values' <==> f in values) && (f in values ==> values'[f] == values[f])
  }

  lemma MergedField(
    start: Cache, cached: Cache, given: map<Field, real>, b: Block, now: Time, shown: map<Field, real>,
    cached': Cache, values: map<Field, real>, f: Field)
    requires BlockOf(f) == b ==> Untouched(start, f, cached, shown)
    requires if BlockOf(f) == b then Handled(cached, given, f, now, cached', values)
               else Untouched(cached, f, cached', values)
    ensures if BlockOf(f) == b then Handled(start, given, f, now, cached', shown + values)
              else Same(cached, shown, f, cached', shown + values)
  {
  }

  lemma OtherBlockStays(
    start: Cache, message: Message, c: Block, now: Time, cached: Cache, s: Snapshot, cached': Cache, s': Snapshot)
    requires forall f :: BlockOf(f) == c ==> Same(cached, s.values, f, cached', s'.values)
    requires (c in s'.headers <==> c in s.headers) && (c in s.headers ==> s'.headers[c] == s.headers[c])
    ensures BlockDone(start, message, c, now, cached, s) ==> BlockDone(start, message, c, now, cached', s')
    ensures BlockUntouched(start, c, cached, s) ==> BlockUntouched(start, c, cached', s')
  {
    forall f | BlockOf(f) == c
      ensures Handled(start, message.values, f, now, cached, s.values) ==>
                Handled(start, message.values, f, now, cached', s'.values)
      ensures Untouched(start, f, cached, s.values) ==> Untouched(start, f, cached', s'.values)
    {
      assert Same(cached, s.values, f, cached', s'.values);
    }
  }

  lemma OldestOfBlock(
    start: Cache, cached: Cache, message: Message, b: Block, now: Time,
    oldest: Option<int>, headers: map<Block, Header>)
    requires forall f :: BlockOf(f) == b ==> (f in cached <==> f in start) && (f in start ==> cached[f] == start[f])
    requires IsOldest(cached, message.values, FieldsOf(b), now, oldest)
    requires oldest.Some? ==> b in headers && headers[b] == Header(Some(Stale), oldest)
    requires oldest.None? ==> (b in headers <==> b in message.headers)
    requires oldest.None? && b in message.headers ==> headers[b] == message.headers[b]
    ensures HeaderFollows(start, message, b, now, headers)
  {
    forall f
      ensures f in FieldsOf(b) <==> BlockOf(f) == b
    {
      FieldsAreListed(b, f);
    }
  }

  // ---- the cache against the history -----------------------------------------

  lemma RetainedIsShown(cached: Cache, history: seq<Reception>, latest: Time, message: Message, now: Time, f: Field)
    requires InOrder(history, latest) && latest <= now && RemembersField(cached, history, latest, f)
    ensures var all := history + [Reception(message, now)];
            Retained(cached, message.values, f, now) == Shown(all, f, now)
  {
    var all := history + [Reception(message, now)];
    assert all[..|history|] == history;
    if f !in message.values && Latest(history, f).Some? {
      LatestIsPast(history, latest, f);
    }
  }

  lemma SnapshotIsRight(
    cached: Cache, history: seq<Reception>, latest: Time, message: Message, now: Time, cached': Cache, s: Snapshot)
    requires InOrder(history, latest) && latest <= now && Remembers(cached, history, latest)
    requires forall b :: BlockDone(cached, message, b, now, cached', s)
    ensures var all := history + [Reception(message, now)];
            InOrder(all, now) && Remembers(cached', all, now) && IsSnapshotOf(s, all, message, now)
  {
    var all := history + [Reception(message, now)];
    assert all[..|history|] == history;
    forall f
      ensures Retained(cached, message.values, f, now) == Shown(all, f, now)
      ensures Handled(cached, message.values, f, now, cached', s.values)
      ensures RemembersField(cached', all, now, f)
    {
      assert RemembersField(cached, history, latest, f);
      RetainedIsShown(cached, history, latest, message, now, f);
      assert BlockDone(cached, message, BlockOf(f), now, cached', s);
    }
    forall b
      ensures IsHeaderOf(s, all, message, b, now)
    {
      assert BlockDone(cached, message, b, now, cached', s);
      HeaderIsRight(cached, all, message, now, b, s);
    }
  }

  lemma HeaderIsRight(cached: Cache, all: seq<Reception>, message: Message, now: Time, b: Block, s: Snapshot)
    requires forall f :: Retained(cached, message.values, f, now) == Shown(all, f, now)
    requires HeaderFollows(cached, message, b, now, s.headers)
    ensures IsHeaderOf(s, all, message, b, now)
  {
    forall f
      ensures f in FieldsOf(b) <==> BlockOf(f) == b
      ensures FallsBack(cached, message.values, f, now) <==> FromEarlier(all, message, f, now)
      ensures FallsBack(cached, message.values, f, now) ==> Shown(all, f, now) == Some(cached[f])
    {
      FieldsAreListed(b, f);
      assert Retained(cached, message.values, f, now) == Shown(all, f, now);
    }
  }

  // ---- the store -------------------------------------------------------------

  class DeviceLiveStateStore {
    var states: map<string, Snapshot>
    var lastValues: map<string, Cache>
    /** Everything each device ever sent, and the time of the latest update. */
    ghost var history: map<string, seq<Reception>>
    ghost var latest: Time

    ghost predicate Valid()
      reads this
    {
      && lastValues.Keys == history.Keys
      && forall d :: d in history ==> InOrder(history[d], latest) && Remembers(lastValues[d], history[d], latest)
    }

    constructor (now: Time)
      ensures Valid() && states == map[] && history == map[] && latest == now
    {
      states, lastValues, history, latest := map[], map[], map[], now;
    }

    method Update(device: string, message: Message, receivedAt: Time)
      requires Valid() && latest <= receivedAt
      modifies this
      ensures Valid() && latest == receivedAt
      ensures history == old(history)[device := (if device in old(history) then old(history)[device] else [])
                + [Reception(message, receivedAt)]]
      ensures device in states && states == old(states)[device := states[device]]
      ensures IsSnapshotOf(states[device], history[device], message, receivedAt)
    {
      var cached := if device in lastValues then lastValues[device] else map[];
      ghost var past := if device in history then history[device] else [];
      forall d | d in history
        ensures InOrder(history[d], receivedAt) && Remembers(lastValues[d], history[d], receivedAt)
      {
        RemembersLater(lastValues[d], history[d], latest, receivedAt);
      }
      var snapshot;
      cached, snapshot := RetainRecentValues(cached, message, receivedAt);
      ghost var before := if device in lastValues then lastValues[device] else map[];
      SnapshotIsRight(before, past, latest, message, receivedAt, cached, snapshot);
      lastValues := lastValues[device := cached];
      states := states[device := snapshot];
      history := history[device := past + [Reception(message, receivedAt)]];
      latest := receivedAt;
    }
  }

  lemma RemembersLater(cached: Cache, history: seq<Reception>, latest: Time, now: Time)
    requires InOrder(history, latest) && Remembers(cached, history, latest) && latest <= now
    ensures InOrder(history, now) && Remembers(cached, history, now)
  {
    forall f
      ensures RemembersField(cached, history, now, f)
    {
      assert RemembersField(cached, history, latest, f);
    }
  }
}
