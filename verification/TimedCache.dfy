/**
 The in-memory cache: a shared map whose expired entries are removed only when they are next
 looked at, against an ideal map from which every entry vanishes at the instant it expires.
 */
module TimedCache {
  import opened Common

  /** Instants and durations count nanoseconds. */
  const SECOND: nat := 1_000_000_000

  datatype Entry<+V> = Entry(value: V, expiresAt: Option<nat>)

  type Store<V> = map<string, Entry<V>>

  predicate Expired<V>(e: Entry<V>, now: nat) {
    e.expiresAt.Some? && now >= e.expiresAt.value
  }

  /** `remove_if`: drops the entry for `key` if it has expired. */
  function RemoveIfExpired<V>(m: Store<V>, key: string, now: nat): Store<V> {
    if key in m && Expired(m[key], now) then m - {key} else m
  }

  // ----- decimal numbers as the cache stores them -----

  function Digit(d: nat): char
    requires d < 10
  {
    '0' + d as char
  }

  function Digits(n: nat): string {
    if n < 10 then [Digit(n)] else Digits(n / 10) + [Digit(n % 10)]
  }

  /** `i64::to_string`. */
  function Render(n: int): string {
    if n < 0 then "-" + Digits(-n) else Digits(n)
  }

  function ParseDigits(s: string): Option<nat> {
    if s == "" then None
    else
      var c := s[|s| - 1];
      if !('0' <= c <= '9') then None
      else if |s| == 1 then Some((c - '0') as nat)
      else
        match ParseDigits(s[..|s| - 1])
        case Some(n) => Some(10 * n + (c - '0') as nat)
        case None => None
  }

  /** `str::parse::<i64>`: an optional sign, then digits, within range. */
  function Parse(s: string): Option<int> {
    var (sign, digits) := if s != "" && s[0] == '-' then (-1, s[1..])
                          else if s != "" && s[0] == '+' then (1, s[1..]) else (1, s);
    match ParseDigits(digits)
    case Some(n) => if IsI64(sign * n) then Some(sign * n) else None
    case None => None
  }

  lemma DigitIsRead(d: nat)
    requires d < 10
    ensures '0' <= Digit(d) <= '9' && (Digit(d) - '0') as nat == d
    ensures Digit(d) != '-' && Digit(d) != '+'
  {
  }

  lemma DigitsStep(n: nat)
    requires n >= 10
    ensures n == 10 * (n / 10) + n % 10
    ensures Digits(n) == Digits(n / 10) + [Digit(n % 10)]
  {
  }

  lemma ParseStep(s: string, d: nat)
    requires s != "" && d < 10
    ensures ParseDigits(s + [Digit(d)])
            == match ParseDigits(s) case Some(n) => Some(10 * n + d) case None => None
  {
    DigitIsRead(d);
    assert (s + [Digit(d)])[..|s|] == s;
  }

  lemma {:induction false} ParseOfDigits(n: nat)
    ensures ParseDigits(Digits(n)) == Some(n)
    ensures Digits(n) != "" && '0' <= Digits(n)[0] <= '9' && (Digits(n)[0] == '0' <==> n == 0)
  {
    if n < 10 {
      DigitIsRead(n);
      assert Digits(n) == [Digit(n)];
    } else {
      ParseOfDigits(n / 10);
      DigitsStep(n);
      ParseStep(Digits(n / 10), n % 10);
    }
  }

  lemma ParseUnsigned(s: string, n: nat)
    requires s != "" && s[0] != '-' && s[0] != '+' && ParseDigits(s) == Some(n) && IsI64(n)
    ensures Parse(s) == Some(n)
  {
  }

  lemma ParseNegative(s: string, n: int)
    requires n < 0 && ParseDigits(s) == Some(-n) && IsI64(n)
    ensures Parse("-" + s) == Some(n)
  {
    assert ("-" + s)[1..] == s;
  }

  /** What is stored reads back as the number stored. It has no plus sign and no leading zero. */
  lemma ParseOfRender(n: int)
    requires IsI64(n)
    ensures Parse(Render(n)) == Some(n)
    ensures 0 <= n ==> Render(n) != "" && '0' <= Render(n)[0] <= '9' && (Render(n)[0] == '0' <==> n == 0)
    ensures n < 0 ==> |Render(n)| > 1 && Render(n)[0] == '-' && '1' <= Render(n)[1] <= '9'
  {
    if n < 0 {
      ParseOfDigits(-n);
      ParseNegative(Digits(-n), n);
    } else {
      ParseOfDigits(n);
      ParseUnsigned(Digits(n), n);
    }
  }

  predicate AllDigits(s: string) {
    s != "" && forall i :: 0 <= i < |s| ==> '0' <= s[i] <= '9'
  }

  /** The number that decimal digits denote. */
  function Number(s: string): nat
    requires forall i :: 0 <= i < |s| ==> '0' <= s[i] <= '9'
  {
    if s == "" then 0 else 10 * Number(s[..|s| - 1]) + (s[|s| - 1] - '0') as nat
  }

  lemma {:induction false} ParseDigitsIff(s: string)
    ensures ParseDigits(s).Some? <==> AllDigits(s)
    ensures AllDigits(s) ==> ParseDigits(s) == Some(Number(s))
  {
    if s != "" {
      var init := s[..|s| - 1];
      ParseDigitsIff(init);
      if AllDigits(s) {
        assert forall i :: 0 <= i < |init| ==> init[i] == s[i];
        assert init == "" ==> |s| == 1 && Number(init) == 0;
      } else if ParseDigits(s).Some? {
        assert forall i :: 0 <= i < |s| ==> s[i] == if i < |init| then init[i] else s[|s| - 1];
      }
    }
  }

  /** `digits` is what follows the optional sign of `s`. */
  ghost predicate Signed(s: string, sign: int, digits: string) {
    || (sign == -1 && s == "-" + digits)
    || (sign == 1 && (s == "+" + digits || s == digits))
  }

  /** A stored text is read as a number exactly if it is one: digits after an optional sign, within an `i64`. */
  lemma ParseIff(s: string, n: int)
    ensures Parse(s) == Some(n)
       <==> exists sign, digits :: Signed(s, sign, digits) && AllDigits(digits) && n == sign * Number(digits) && IsI64(n)
  {
    forall sign, digits | Signed(s, sign, digits) && AllDigits(digits)
      ensures Parse(s) == if IsI64(sign * Number(digits)) then Some(sign * Number(digits)) else None
    {
      ParseDigitsIff(digits);
      ParseSigned(s, sign, digits);
    }
    if Parse(s) == Some(n) {
      var (sign, digits) := if s != "" && s[0] == '-' then (-1, s[1..])
                            else if s != "" && s[0] == '+' then (1, s[1..]) else (1, s);
      ParseDigitsIff(digits);
      assert s != "" ==> s == [s[0]] + s[1..];
      assert Signed(s, sign, digits);
    }
  }

  lemma ParseSigned(s: string, sign: int, digits: string)
    requires Signed(s, sign, digits) && AllDigits(digits) && ParseDigits(digits) == Some(Number(digits))
    ensures Parse(s) == if IsI64(sign * Number(digits)) then Some(sign * Number(digits)) else None
  {
    assert '0' <= digits[0] <= '9';
    assert s == "-" + digits ==> s[0] == '-' && s[1..] == digits;
    assert s == "+" + digits ==> s[0] == '+' && s[1..] == digits;
  }

  // ----- the operations -----

  datatype Op =
    | Get(key: string)
    | Set(key: string, value: string, ttl: Option<nat>)
    | Del(key: string)
    | Incr(key: string, delta: int, windowSecs: nat)

  datatype Answer = Done | Found(value: Option<string>) | Count(n: int)

  datatype Step = Step(now: nat, op: Op)

  function Deadline(now: nat, ttl: Option<nat>): Option<nat> {
    match ttl
    case Some(d) => Some(now + d)
    case None => None
  }

  function Lookup<V>(m: Store<V>, key: string): Option<V> {
    if key in m then Some(m[key].value) else None
  }

  /** A counter starts at `delta` with a new window, or adds to a number already there. */
  function Counted(m: Store<string>, key: string, delta: int, deadline: nat): (r: (Store<string>, int)) {
    if key !in m then (m[key := Entry(Render(delta), Some(deadline))], delta)
    else
      var n := WrapI64(Parse(m[key].value).GetOr(0) + delta);
      (m[key := m[key].(value := Render(n))], n)
  }

  /** What the cache does: only the entry being looked at is ever removed. */
  function CacheStep(m: Store<string>, s: Step): (Store<string>, Answer) {
    match s.op
    case Get(key) =>
      var m' := RemoveIfExpired(m, key, s.now);
      (m', Found(Lookup(m', key)))
    case Set(key, value, ttl) => (m[key := Entry(value, Deadline(s.now, ttl))], Done)
    case Del(key) => (m - {key}, Done)
    case Incr(key, delta, windowSecs) =>
      var (m', n) := Counted(RemoveIfExpired(m, key, s.now), key, delta, s.now + windowSecs * SECOND);
      (m', Count(n))
  }

  /** The entries alive at `now`. */
  function Alive<V>(m: Store<V>, now: nat): Store<V> {
    map k | k in m && !Expired(m[k], now) :: m[k]
  }

  /** What an ideal timed map does: at every instant it holds just what is alive. */
  function IdealStep(m: Store<string>, s: Step): (Store<string>, Answer) {
    var alive := Alive(m, s.now);
    match s.op
    case Get(key) => (alive, Found(Lookup(alive, key)))
    case Set(key, value, ttl) => (alive[key := Entry(value, Deadline(s.now, ttl))], Done)
    case Del(key) => (alive - {key}, Done)
    case Incr(key, delta, windowSecs) =>
      var (m', n) := Counted(alive, key, delta, s.now + windowSecs * SECOND);
      (m', Count(n))
  }

  function CacheRun(steps: seq<Step>): (Store<string>, seq<Answer>) {
    if steps == [] then (map[], [])
    else
      var (m, answers) := CacheRun(steps[..|steps| - 1]);
      var (m', a) := CacheStep(m, steps[|steps| - 1]);
      (m', answers + [a])
  }

  function IdealRun(steps: seq<Step>): (Store<string>, seq<Answer>) {
    if steps == [] then (map[], [])
    else
      var (m, answers) := IdealRun(steps[..|steps| - 1]);
      var (m', a) := IdealStep(m, steps[|steps| - 1]);
      (m', answers + [a])
  }

  /** The clock never runs backwards. */
  predicate Monotone(steps: seq<Step>) {
    forall i, j :: 0 <= i <= j < |steps| ==> steps[i].now <= steps[j].now
  }

  /** Each operation, on the cache and on the ideal map, is the same change to what is alive. */
  lemma StepOnAlive(m: Store<string>, s: Step)
    ensures IdealStep(m, s).1 == CacheStep(m, s).1
    ensures Alive(CacheStep(m, s).0, s.now) == Alive(IdealStep(m, s).0, s.now)
  {
    SweepIsInvisible(m, s);
    var m', ideal' := CacheStep(m, s).0, IdealStep(m, s).0;
    forall k
      ensures k in Alive(m', s.now) <==> k in Alive(ideal', s.now)
      ensures k in Alive(m', s.now) ==> Alive(m', s.now)[k] == Alive(ideal', s.now)[k]
    {
      if k != s.op.key {
        OtherKeysStay(m, s, k);
      }
    }
  }

  /** At the key the operation looks at, sweeping that key alone leaves what sweeping everything would. */
  lemma SweepIsInvisible(m: Store<string>, s: Step)
    ensures var swept, alive := RemoveIfExpired(m, s.op.key, s.now), Alive(m, s.now);
            (s.op.key in swept <==> s.op.key in alive) && (s.op.key in swept ==> swept[s.op.key] == alive[s.op.key])
  {
  }

  lemma OtherKeysStay(m: Store<string>, s: Step, k: string)
    requires k != s.op.key
    ensures var m', ideal' := CacheStep(m, s).0, IdealStep(m, s).0;
            && (k in m' <==> k in m) && (k in m' ==> m'[k] == m[k])
            && (k in ideal' <==> k in Alive(m, s.now)) && (k in ideal' ==> ideal'[k] == m[k])
  {
  }

  /** The ideal map looks at nothing but what is alive. */
  lemma IdealSeesAlive(m: Store<string>, ideal: Store<string>, s: Step)
    requires Alive(m, s.now) == Alive(ideal, s.now)
    ensures IdealStep(m, s) == IdealStep(ideal, s)
  {
  }

  lemma StepRefines(m: Store<string>, ideal: Store<string>, s: Step)
    requires Alive(m, s.now) == Alive(ideal, s.now)
    ensures CacheStep(m, s).1 == IdealStep(ideal, s).1
    ensures Alive(CacheStep(m, s).0, s.now) == Alive(IdealStep(ideal, s).0, s.now)
  {
    StepOnAlive(m, s);
    IdealSeesAlive(m, ideal, s);
  }

  lemma AliveLater<V>(m: Store<V>, other: Store<V>, now: nat, later: nat)
    requires now <= later && Alive(m, now) == Alive(other, now)
    ensures Alive(m, later) == Alive(other, later)
  {
    forall k
      ensures k in Alive(m, later) <==> k in Alive(other, later)
      ensures k in Alive(m, later) ==> Alive(m, later)[k] == Alive(other, later)[k]
    {
      assert k in Alive(m, later) ==> k in Alive(m, now);
      assert k in Alive(other, later) ==> k in Alive(other, now);
    }
  }

  /**
   Lazy removal is invisible. Over every run on a clock that never runs backwards, the cache gives
   the answers of the ideal timed map, and at any later instant the same entries are alive in both.
   */
  lemma {:induction false} CacheRefinesIdeal(steps: seq<Step>, later: nat)
    requires Monotone(steps)
    requires steps != [] ==> steps[|steps| - 1].now <= later
    ensures CacheRun(steps).1 == IdealRun(steps).1
    ensures Alive(CacheRun(steps).0, later) == Alive(IdealRun(steps).0, later)
  {
    if steps != [] {
      var init, s := steps[..|steps| - 1], steps[|steps| - 1];
      CacheRefinesIdeal(init, s.now);
      StepRefines(CacheRun(init).0, IdealRun(init).0, s);
      AliveLater(CacheRun(steps).0, IdealRun(steps).0, s.now, later);
    }
  }

  // ----- how long an entry lives -----

  /** Nothing in these steps touches `key` but reads. */
  predicate OnlyRead(steps: seq<Step>, key: string) {
    forall i :: 0 <= i < |steps| && steps[i].op.key == key ==> steps[i].op.Get?
  }

  /** What a read of `key` at `now` would find in `m`. */
  function Seen(m: Store<string>, key: string, now: nat): Option<string> {
    Lookup(RemoveIfExpired(m, key, now), key)
  }

  /** An earlier step that does not write `key` leaves what is seen of it later. */
  lemma SeenAfter(m: Store<string>, s: Step, key: string, now: nat)
    requires s.now <= now && (s.op.key == key ==> s.op.Get?)
    ensures Seen(CacheStep(m, s).0, key, now) == Seen(m, key, now)
  {
  }

  lemma {:induction false} SeenLater(steps: seq<Step>, more: seq<Step>, key: string, now: nat)
    requires OnlyRead(more, key) && forall i :: 0 <= i < |more| ==> more[i].now <= now
    ensures Seen(CacheRun(steps + more).0, key, now) == Seen(CacheRun(steps).0, key, now)
    decreases |more|
  {
    if more == [] {
      assert steps + more == steps;
    } else {
      var init, last := more[..|more| - 1], more[|more| - 1];
      assert (steps + more)[..|steps + more| - 1] == steps + init;
      SeenLater(steps, init, key, now);
      SeenAfter(CacheRun(steps + init).0, last, key, now);
    }
  }

  /**
   An entry set at `t` to live for `d` is found by every read before `t + d`, and by none from then on; an
   entry set to live for ever is always found. Reads in between, and whatever happens to other keys,
   change nothing about that.
   */
  lemma FoundIff(before: seq<Step>, t: nat, key: string, value: string, ttl: Option<nat>, more: seq<Step>, now: nat)
    requires OnlyRead(more, key) && t <= now && forall i :: 0 <= i < |more| ==> more[i].now <= now
    ensures var steps := before + [Step(t, Set(key, value, ttl))] + more;
            CacheStep(CacheRun(steps).0, Step(now, Get(key))).1
            == Found(if ttl.Some? && t + ttl.value <= now then None else Some(value))
  {
    var written := before + [Step(t, Set(key, value, ttl))];
    assert written[..|before|] == before;
    SeenLater(written, more, key, now);
  }

  /** A removed entry is found by no read until the key is written again. */
  lemma RemovedIsGone(before: seq<Step>, t: nat, key: string, more: seq<Step>, now: nat)
    requires OnlyRead(more, key) && t <= now && forall i :: 0 <= i < |more| ==> more[i].now <= now
    ensures CacheStep(CacheRun(before + [Step(t, Del(key))] + more).0, Step(now, Get(key))).1 == Found(None)
  {
    var removed := before + [Step(t, Del(key))];
    assert removed[..|before|] == before;
    SeenLater(removed, more, key, now);
  }

  /** Whatever a live entry holds, an increment adds to the number it reads as, or to 0, and keeps its deadline. */
  lemma IncrOnValue(m: Store<string>, key: string, delta: int, windowSecs: nat, now: nat)
    requires key in m && (m[key].expiresAt.Some? ==> now < m[key].expiresAt.value)
    ensures var number := if Parse(m[key].value).Some? then Parse(m[key].value).value else 0;
            CacheStep(m, Step(now, Incr(key, delta, windowSecs)))
            == (m[key := Entry(Render(WrapI64(number + delta)), m[key].expiresAt)], Count(WrapI64(number + delta)))
  {
  }

  // ----- counters -----

  /** One call on a counter. */
  datatype Call = Call(now: nat, delta: int, window: nat)

  /**
   The call that opened the window which call `n` falls into. A window opened by call `s` covers
   the instants from `calls[s].now` up to, but not including, `calls[s].now + calls[s].window`.
   */
  function WindowStart(calls: seq<Call>, n: nat): (s: nat)
    requires n < |calls|
    ensures s <= n
  {
    if n == 0 then 0
    else
      var s := WindowStart(calls, n - 1);
      if calls[n].now >= calls[s].now + calls[s].window then n else s
  }

  function SumOfDeltas(calls: seq<Call>, from: nat, to: nat): int
    requires from <= to <= |calls|
  {
    if from == to then 0 else SumOfDeltas(calls, from, to - 1) + calls[to - 1].delta
  }

  /** The calls on counter `key` in a run. */
  function CallsOn(steps: seq<Step>, key: string): seq<Call> {
    if steps == [] then []
    else
      var s := steps[|steps| - 1];
      CallsOn(steps[..|steps| - 1], key) +
      (if s.op.Incr? && s.op.key == key then [Call(s.now, s.op.delta, s.op.windowSecs * SECOND)] else [])
  }

  /** Nothing but increments touches `key`. */
  predicate OnlyCounts(steps: seq<Step>, key: string) {
    forall i :: 0 <= i < |steps| && steps[i].op.key == key ==> steps[i].op.Incr? && IsI64(steps[i].op.delta)
  }

  lemma {:induction false} PrefixWindows(calls: seq<Call>, more: Call, n: nat)
    requires n < |calls|
    ensures WindowStart(calls + [more], n) == WindowStart(calls, n)
  {
    if n > 0 {
      PrefixWindows(calls, more, n - 1);
    }
  }

  lemma {:induction false} PrefixSums(calls: seq<Call>, more: Call, from: nat, to: nat)
    requires from <= to <= |calls|
    ensures SumOfDeltas(calls + [more], from, to) == SumOfDeltas(calls, from, to)
  {
    if from < to {
      PrefixSums(calls, more, from, to - 1);
    }
  }

  /** The running count of a counter: the sum since its window began, as an `i64`. */
  function WindowSum(calls: seq<Call>): int
    requires calls != []
  {
    WrapI64(SumOfDeltas(calls, WindowStart(calls, |calls| - 1), |calls|))
  }

  /** `m` holds counter `key` as its calls have left it. */
  ghost predicate HoldsCounter(m: Store<string>, key: string, calls: seq<Call>) {
    if calls == [] then key !in m
    else key in m && m[key] == Entry(Render(WindowSum(calls)), Some(WindowEnd(calls)))
  }

  function WindowEnd(calls: seq<Call>): nat
    requires calls != []
  {
    var s := WindowStart(calls, |calls| - 1);
    calls[s].now + calls[s].window
  }

  /** One more call opens a window when the last one is over, and otherwise adds to its sum. */
  lemma WindowStep(calls: seq<Call>, more: Call)
    requires calls != [] && IsI64(more.delta)
    ensures var all := calls + [more];
            if more.now >= WindowEnd(calls) then
              WindowSum(all) == more.delta && WindowEnd(all) == more.now + more.window
            else
              WindowSum(all) == WrapI64(WindowSum(calls) + more.delta) && WindowEnd(all) == WindowEnd(calls)
  {
    var all, n := calls + [more], |calls| - 1;
    var s := WindowStart(calls, n);
    PrefixWindows(calls, more, n);
    PrefixSums(calls, more, s, n + 1);
    WrapSum(SumOfDeltas(calls, s, n + 1), more.delta);
    if more.now >= WindowEnd(calls) {
      assert WindowStart(all, |calls|) == |calls|;
      assert SumOfDeltas(all, |calls|, |calls| + 1) == more.delta;
    } else {
      assert WindowStart(all, |calls|) == s;
    }
  }

  /** An expired or missing counter starts anew; a live one goes on from the number it holds. */
  lemma CountedIs(m: Store<string>, key: string, more: Call, held: int, end: nat)
    requires key in m && m[key] == Entry(Render(held), Some(end)) && IsI64(held)
    ensures Counted(RemoveIfExpired(m, key, more.now), key, more.delta, more.now + more.window)
            == if more.now >= end then ((m - {key})[key := Entry(Render(more.delta), Some(more.now + more.window))], more.delta)
               else (m[key := Entry(Render(WrapI64(held + more.delta)), Some(end))], WrapI64(held + more.delta))
  {
    ParseOfRender(held);
  }

  lemma FirstCall(more: Call)
    requires IsI64(more.delta)
    ensures WindowSum([more]) == more.delta && WindowEnd([more]) == more.now + more.window
  {
    assert SumOfDeltas([more], 0, 1) == more.delta;
  }

  lemma CounterStep(m: Store<string>, key: string, calls: seq<Call>, more: Call)
    requires HoldsCounter(m, key, calls) && IsI64(more.delta)
    ensures var (m', n) := Counted(RemoveIfExpired(m, key, more.now), key, more.delta, more.now + more.window);
            HoldsCounter(m', key, calls + [more]) && n == WindowSum(calls + [more])
  {
    if calls == [] {
      assert [] + [more] == [more];
      FirstCall(more);
    } else {
      WindowStep(calls, more);
      CountedIs(m, key, more, WindowSum(calls), WindowEnd(calls));
    }
  }

  lemma StepLeavesOthers(m: Store<string>, s: Step, key: string)
    requires s.op.key != key
    ensures var m' := CacheStep(m, s).0; (key in m' <==> key in m) && (key in m ==> m'[key] == m[key])
  {
  }

  /** A counter that nothing else touches holds the sum of its deltas since its window began. */
  lemma {:induction false} CounterHoldsSum(steps: seq<Step>, key: string)
    requires OnlyCounts(steps, key)
    ensures HoldsCounter(CacheRun(steps).0, key, CallsOn(steps, key))
  {
    if steps != [] {
      var init, s := steps[..|steps| - 1], steps[|steps| - 1];
      CounterHoldsSum(init, key);
      if s.op.key == key {
        CounterStep(CacheRun(init).0, key, CallsOn(init, key), Call(s.now, s.op.delta, s.op.windowSecs * SECOND));
      } else {
        StepLeavesOthers(CacheRun(init).0, s, key);
        assert CallsOn(steps, key) == CallsOn(init, key);
      }
    }
  }

  /** And each increment answers that sum. */
  lemma IncrAnswersWindowSum(steps: seq<Step>, key: string, s: Step)
    requires s.op.Incr? && s.op.key == key && OnlyCounts(steps + [s], key)
    ensures CallsOn(steps + [s], key) == CallsOn(steps, key) + [Call(s.now, s.op.delta, s.op.windowSecs * 1_000_000_000)]
    ensures CacheRun(steps + [s]).1 == CacheRun(steps).1 + [Count(WindowSum(CallsOn(steps + [s], key)))]
  {
    var all := steps + [s];
    assert all[..|steps|] == steps;
    assert OnlyCounts(steps, key) by {
      forall i | 0 <= i < |steps| && steps[i].op.key == key
        ensures steps[i].op.Incr? && IsI64(steps[i].op.delta)
      {
        assert all[i] == steps[i];
      }
    }
    CounterHoldsSum(steps, key);
    assert IsI64(all[|steps|].op.delta);
    CounterStep(CacheRun(steps).0, key, CallsOn(steps, key), Call(s.now, s.op.delta, s.op.windowSecs * SECOND));
  }

  // ----- the cache object -----

  class MemoryCache {
    var entries: Store<string>

    constructor ()
      ensures entries == map[]
    {
      entries := map[];
    }

    method GetString(key: string, now: nat) returns (value: Option<string>)
      modifies this
      ensures (entries, Found(value)) == CacheStep(old(entries), Step(now, Get(key)))
    {
      if key in entries && Expired(entries[key], now) {
        entries := entries - {key};
      }
      value := if key in entries then Some(entries[key].value) else None;
    }

    method SetString(key: string, value: string, ttl: Option<nat>, now: nat)
      modifies this
      ensures (entries, Done) == CacheStep(old(entries), Step(now, Set(key, value, ttl)))
    {
      var expiresAt := Deadline(now, ttl);
      entries := entries[key := Entry(value, expiresAt)];
    }

    method Remove(key: string, now: nat)
      modifies this
      ensures (entries, Done) == CacheStep(old(entries), Step(now, Del(key)))
    {
      entries := entries - {key};
    }

    method IncrWithExpire(key: string, delta: int, windowSecs: nat, now: nat) returns (n: int)
      modifies this
      ensures (entries, Count(n)) == CacheStep(old(entries), Step(now, Incr(key, delta, windowSecs)))
    {
      var window := windowSecs * SECOND;
      var expired := key in entries && Expired(entries[key], now);
      if expired {
        entries := entries - {key};
      }
      var isNewWindow := expired || key !in entries;
      if key !in entries {
        entries := entries[key := Entry("0", Some(now + window))];
      }
      if isNewWindow {
        entries := entries[key := Entry(Render(delta), Some(now + window))];
        n := delta;
        assert entries == RemoveIfExpired(old(entries), key, now)[key := Entry(Render(delta), Some(now + window))];
      } else {
        var current := Parse(entries[key].value).GetOr(0);
        n := WrapI64(current + delta);
        entries := entries[key := entries[key].(value := Render(n))];
      }
    }
  }
}
