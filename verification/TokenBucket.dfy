/** internal/signpost/source/bucket.go: the continuous-fill token bucket, over reals. */
module TokenBucket {
  import opened Text

  /** What newBucket fixes for good: one hour's worth of tokens, and the fill rate. */
  datatype Config = Config(capacity: real, perSec: real)

  /** Times and waits are in seconds; blockedUntil is None while unblocked. */
  datatype State = State(tokens: real, lastFill: real, blockedUntil: Option<real>)

  predicate Sane(c: Config, s: State) {
    1.0 <= c.capacity && 0.0 < c.perSec && 0.0 <= s.tokens <= c.capacity
  }

  function Min(x: real, y: real): real { if x <= y then x else y }

  predicate Blocked(s: State, now: real) { s.blockedUntil.Some? && now < s.blockedUntil.value }

  /** The tokens that flow in over a time, before the cap. */
  function Flow(c: Config, elapsed: real): real { elapsed * c.perSec }

  /** The tokens there are at time now, filled in already or not. */
  function Level(c: Config, s: State, now: real): real {
    if now <= s.lastFill then s.tokens else Min(c.capacity, s.tokens + Flow(c, now - s.lastFill))
  }

  /** How long the fill takes from a level to one whole token. */
  function WaitFor(c: Config, tokens: real): real
    requires 0.0 < c.perSec
  {
    (1.0 - tokens) / c.perSec
  }

  datatype Answer = Answer(granted: bool, wait: real)

  function Filled(c: Config, s: State, now: real): State {
    s.(tokens := Level(c, s, now), lastFill := if now > s.lastFill then now else s.lastFill)
  }

  function Take(c: Config, s: State, now: real): (State, Answer)
    requires 0.0 < c.perSec
  {
    if Blocked(s, now) then (s, Answer(false, s.blockedUntil.value - now))
    else
      var filled := Filled(c, s, now);
      if filled.tokens < 1.0 then (filled, Answer(false, WaitFor(c, filled.tokens)))
      else (filled.(tokens := filled.tokens - 1.0), Answer(true, 0.0))
  }

  function Block(s: State, t: real): State {
    if s.blockedUntil.None? || t > s.blockedUntil.value then s.(blockedUntil := Some(t)) else s
  }

  class Bucket {
    const config: Config
    var tokens: real
    var lastFill: real
    var blockedUntil: Option<real>

    ghost predicate Valid()
      reads this
    {
      Sane(config, Contents())
    }

    ghost function Contents(): State
      reads this
    {
      State(tokens, lastFill, blockedUntil)
    }

    /** newBucket panics on a rate that is not positive. */
    constructor (perHour: int, now: real)
      requires perHour > 0
      ensures Valid() && Contents() == State(perHour as real, now, None)
      ensures config == Config(perHour as real, perHour as real / 3600.0)
    {
      config := Config(perHour as real, perHour as real / 3600.0);
      tokens, lastFill, blockedUntil := perHour as real, now, None;
    }

    method TryTake(now: real) returns (granted: bool, wait: real)
      requires Valid()
      modifies this
      ensures Valid() && (Contents(), Answer(granted, wait)) == Take(config, old(Contents()), now)
    {
      if blockedUntil.Some? && now < blockedUntil.value {
        return false, blockedUntil.value - now;
      }
      ghost var before := Contents();
      LevelBounds(config, before, now);
      var elapsed := now - lastFill;
      assert elapsed * config.perSec == Flow(config, elapsed);
      if elapsed > 0.0 {
        tokens := Min(config.capacity, tokens + elapsed * config.perSec);
        lastFill := now;
      }
      assert Contents() == Filled(config, before, now);
      if tokens < 1.0 {
        return false, WaitFor(config, tokens);
      }
      tokens := tokens - 1.0;
      return true, 0.0;
    }

    method BlockUntil(t: real)
      requires Valid()
      modifies this
      ensures Valid() && Contents() == Block(old(Contents()), t)
    {
      if blockedUntil.None? || t > blockedUntil.value { blockedUntil := Some(t); }
    }
  }

  lemma {:induction false} LevelBounds(c: Config, s: State, now: real)
    requires Sane(c, s)
    ensures 0.0 <= Level(c, s, now) <= c.capacity
  {
    if now > s.lastFill { FlowPositive(c, now - s.lastFill); }
  }

  lemma {:induction false} FlowPositive(c: Config, d: real)
    requires 0.0 < d && 0.0 < c.perSec
    ensures 0.0 < Flow(c, d)
  {
  }

  lemma {:induction false} FlowAdds(c: Config, d: real, e: real)
    ensures Flow(c, d + e) == Flow(c, d) + Flow(c, e)
  {
  }

  lemma {:induction false} FlowChains(c: Config, t0: real, t: real, t1: real)
    ensures Flow(c, t1 - t0) == Flow(c, t - t0) + Flow(c, t1 - t)
  {
  }

  // ----- every sequence of calls --------------------------------------------

  datatype Call = TryTake(at: real) | BlockUntil(at: real, until: real)

  function Step(c: Config, s: State, call: Call): (State, bool)
    requires 0.0 < c.perSec
  {
    match call
    case TryTake(now) => var (after, answer) := Take(c, s, now); (after, answer.granted)
    case BlockUntil(_, t) => (Block(s, t), false)
  }

  function After(c: Config, s: State, calls: seq<Call>): State
    requires 0.0 < c.perSec
  {
    if calls == [] then s else Step(c, After(c, s, calls[..|calls| - 1]), calls[|calls| - 1]).0
  }

  /** The tokens stay between none and the capacity. */
  lemma {:induction false} StaysSane(c: Config, s: State, calls: seq<Call>)
    requires Sane(c, s)
    ensures Sane(c, After(c, s, calls))
  {
    if calls != [] {
      StaysSane(c, s, calls[..|calls| - 1]);
      LevelBounds(c, After(c, s, calls[..|calls| - 1]), calls[|calls| - 1].at);
    }
  }

  predicate Granted(c: Config, s: State, calls: seq<Call>, i: nat)
    requires 0.0 < c.perSec && i < |calls|
  {
    Step(c, After(c, s, calls[..i]), calls[i]).1
  }

  predicate ClockAdvances(calls: seq<Call>) { forall i, j :: 0 <= i < j < |calls| ==> calls[i].at <= calls[j].at }

  /** Grants among the calls from lo on. */
  function Grants(c: Config, s: State, calls: seq<Call>, lo: nat): nat
    requires 0.0 < c.perSec
  {
    if |calls| <= lo then 0
    else
      var n := |calls| - 1;
      Grants(c, s, calls[..n], lo) + if Granted(c, s, calls, n) then 1 else 0
  }

  lemma {:induction false} GrantsPrefix(c: Config, s: State, calls: seq<Call>, lo: nat)
    requires 0.0 < c.perSec && lo < |calls|
    ensures var n := |calls| - 1;
      Grants(c, s, calls, lo) as real
      == Grants(c, s, calls[..n], lo) as real + if Granted(c, s, calls, n) then 1.0 else 0.0
  {
  }

  lemma {:induction false} LastFillIsPast(c: Config, s: State, calls: seq<Call>, t: real)
    requires 0.0 < c.perSec && s.lastFill <= t && forall i :: 0 <= i < |calls| ==> calls[i].at <= t
    ensures After(c, s, calls).lastFill <= t
  {
    if calls != [] { LastFillIsPast(c, s, calls[..|calls| - 1], t); }
  }

  /** The level grows at most at the fill rate. */
  lemma {:induction false} LevelGrowth(c: Config, s: State, t: real, u: real)
    requires Sane(c, s) && s.lastFill <= t <= u
    ensures Level(c, s, u) <= Level(c, s, t) + Flow(c, u - t)
  {
    LevelBounds(c, s, t);
    FlowAdds(c, t - s.lastFill, u - t);
    if u > t { FlowPositive(c, u - t); }
  }

  lemma {:induction false} StepConserves(c: Config, s: State, call: Call, t1: real)
    requires Sane(c, s) && s.lastFill <= call.at <= t1
    ensures var (after, granted) := Step(c, s, call);
      (if granted then 1.0 else 0.0) + Level(c, after, t1) <= Level(c, s, call.at) + Flow(c, t1 - call.at)
  {
    LevelBounds(c, s, call.at);
    LevelGrowth(c, s, call.at, t1);
    if call.TryTake? && !Blocked(s, call.at) {
      var filled := Filled(c, s, call.at);
      LevelGrowth(c, filled, call.at, t1);
      if filled.tokens >= 1.0 { LevelGrowth(c, Take(c, s, call.at).0, call.at, t1); }
    }
  }

  lemma {:induction false} LastCallConserves(c: Config, s: State, calls: seq<Call>, t1: real)
    requires Sane(c, s) && calls != [] && ClockAdvances(calls)
    requires s.lastFill <= calls[|calls| - 1].at <= t1
    ensures var n := |calls| - 1;
      (if Granted(c, s, calls, n) then 1.0 else 0.0) + Level(c, After(c, s, calls), t1)
      <= Level(c, After(c, s, calls[..n]), calls[n].at) + Flow(c, t1 - calls[n].at)
  {
    var n := |calls| - 1;
    LastFillIsPast(c, s, calls[..n], calls[n].at);
    StaysSane(c, s, calls[..n]);
    StepConserves(c, After(c, s, calls[..n]), calls[n], t1);
  }

  /** What a window of calls granted, plus what is left, is covered by what was there
      and what has flowed in. */
  lemma {:induction false} Conservation(c: Config, s: State, calls: seq<Call>, lo: nat, t0: real, t1: real)
    requires Sane(c, s) && s.lastFill <= t0 <= t1 && ClockAdvances(calls) && lo <= |calls|
    requires forall i :: 0 <= i < lo ==> calls[i].at <= t0
    requires forall i :: lo <= i < |calls| ==> t0 <= calls[i].at <= t1
    ensures Grants(c, s, calls, lo) as real + Level(c, After(c, s, calls), t1) <=
            Level(c, After(c, s, calls[..lo]), t0) + Flow(c, t1 - t0)
  {
    if |calls| == lo {
      assert calls[..lo] == calls;
      LastFillIsPast(c, s, calls, t0);
      StaysSane(c, s, calls);
      LevelGrowth(c, After(c, s, calls), t0, t1);
    } else {
      var n := |calls| - 1;
      assert calls[..n][..lo] == calls[..lo];
      Conservation(c, s, calls[..n], lo, t0, calls[n].at);
      LastCallConserves(c, s, calls, t1);
      FlowChains(c, t0, calls[n].at, t1);
      GrantsPrefix(c, s, calls, lo);
    }
  }

  /** Over every sequence of calls with a clock that does not go back: the grants in any
      window are at most one capacity plus what flows in during the window. */
  lemma {:induction false} WindowBound(c: Config, s: State, calls: seq<Call>, lo: nat, t0: real, t1: real)
    requires Sane(c, s) && s.lastFill <= t0 <= t1 && ClockAdvances(calls) && lo <= |calls|
    requires forall i :: 0 <= i < lo ==> calls[i].at <= t0
    requires forall i :: lo <= i < |calls| ==> t0 <= calls[i].at <= t1
    ensures Grants(c, s, calls, lo) as real <= c.capacity + Flow(c, t1 - t0)
  {
    Conservation(c, s, calls, lo, t0, t1);
    StaysSane(c, s, calls);
    StaysSane(c, s, calls[..lo]);
    LevelBounds(c, After(c, s, calls), t1);
    LevelBounds(c, After(c, s, calls[..lo]), t0);
  }

  lemma {:induction false} StaysBlocked(c: Config, s: State, calls: seq<Call>, i: nat)
    requires 0.0 < c.perSec && i < |calls| && calls[i].BlockUntil?
    ensures var until := After(c, s, calls).blockedUntil; until.Some? && until.value >= calls[i].until
  {
    var n := |calls| - 1;
    if i < n {
      assert calls[..n][i] == calls[i];
      StaysBlocked(c, s, calls[..n], i);
    }
  }

  /** No call is granted before an unblock time set by any earlier call. */
  lemma {:induction false} NoGrantWhileBlocked(c: Config, s: State, calls: seq<Call>, i: nat, j: nat)
    requires 0.0 < c.perSec && i < j < |calls|
    requires calls[i].BlockUntil? && calls[j].at < calls[i].until
    ensures !Granted(c, s, calls, j)
  {
    StaysBlocked(c, s, calls[..j], i);
    assert calls[..j][i] == calls[i];
  }

  // ----- the wait is exact --------------------------------------------------

  lemma {:induction false} WaitIsTheFill(c: Config, tokens: real, d: real)
    requires 0.0 < c.perSec
    ensures d >= WaitFor(c, tokens) <==> tokens + Flow(c, d) >= 1.0
  {
    var w := WaitFor(c, tokens);
    assert Flow(c, w) == 1.0 - tokens;
    FlowAdds(c, w, d - w);
    FlowAdds(c, d, w - d);
    if d > w { FlowPositive(c, d - w); }
    if d < w { FlowPositive(c, w - d); }
  }

  /** After a refusal for lack of tokens, with nothing in between: a retry succeeds
      exactly from the returned wait on. */
  lemma {:induction false} TokenWaitIsExact(c: Config, s: State, now: real, d: real)
    requires Sane(c, s) && s.lastFill <= now && !Blocked(s, now) && !Take(c, s, now).1.granted && 0.0 <= d
    ensures var (after, answer) := Take(c, s, now);
      Take(c, after, now + d).1.granted <==> d >= answer.wait
  {
    LevelBounds(c, s, now);
    var filled := Filled(c, s, now);
    WaitIsTheFill(c, filled.tokens, d);
    assert Level(c, filled, now + d)
      == if d == 0.0 then filled.tokens else Min(c.capacity, filled.tokens + Flow(c, d)) by {
      assert filled.lastFill == now && now + d - filled.lastFill == d;
    }
  }

  lemma {:induction false} LevelLater(c: Config, s: State, now: real, d: real)
    requires Sane(c, s) && s.lastFill <= now && 0.0 <= d
    ensures Level(c, s, now + d) >= 1.0 <==> d >= WaitFor(c, Level(c, s, now))
  {
    WaitIsTheFill(c, Level(c, s, now), d);
    FlowAdds(c, now - s.lastFill, d);
    FlowPositiveOrNone(c, d);
    FlowPositiveOrNone(c, now - s.lastFill);
  }

  lemma {:induction false} FlowPositiveOrNone(c: Config, d: real)
    requires 0.0 <= d && 0.0 < c.perSec
    ensures 0.0 <= Flow(c, d) && (d == 0.0 ==> Flow(c, d) == 0.0)
  {
  }

  /** After a refusal by a block, with nothing in between: a retry succeeds exactly from
      the unblock time or the next token on, whichever is later. */
  lemma {:induction false} BlockedRetryExactly(c: Config, s: State, now: real, d: real)
    requires Sane(c, s) && s.lastFill <= now && Blocked(s, now) && 0.0 <= d
    ensures Take(c, Take(c, s, now).0, now + d).1.granted
      <==> d >= s.blockedUntil.value - now && d >= WaitFor(c, Level(c, s, now))
  {
    LevelLater(c, s, now, d);
  }

  /** The wait returned is the block's alone. It is the promised one exactly when there is
      a token already, or the block outlasts the filling of one. */
  lemma {:induction false} BlockWaitIsEnoughExactly(c: Config, s: State, now: real)
    requires Sane(c, s) && s.lastFill <= now && Blocked(s, now)
    ensures var (after, answer) := Take(c, s, now);
      Take(c, after, now + answer.wait).1.granted
      <==> Level(c, s, now) >= 1.0 || s.blockedUntil.value - now >= WaitFor(c, Level(c, s, now))
  {
    BlockedRetryExactly(c, s, now, s.blockedUntil.value - now);
    WaitIsTheFill(c, Level(c, s, now), 0.0);
  }

  /** The bucket of one token an hour that newBucket makes at time 0. */
  const SLOW := Config(1.0, 1.0 / 3600.0)
  const SLOW_START := State(1.0, 0.0, None)

  /** A run in which it is not: the token is spent, a short block is set, and the retry at
      the wait that was returned is refused. */
  lemma {:induction false} BlockWaitTooShort()
    ensures var s := After(SLOW, SLOW_START, [TryTake(0.0), BlockUntil(0.0, 1.0)]);
      && Take(SLOW, s, 0.5) == (s, Answer(false, 0.5))
      && !Take(SLOW, s, 0.5 + 0.5).1.granted
  {
    var calls := [TryTake(0.0), BlockUntil(0.0, 1.0)];
    assert calls[..1] == [TryTake(0.0)] && calls[..1][..0] == [];
    assert After(SLOW, SLOW_START, calls[..1]) == State(0.0, 0.0, None);
    assert After(SLOW, SLOW_START, calls) == State(0.0, 0.0, Some(1.0));
  }

  // ----- what is granted at least -------------------------------------------

  /** The level grows by exactly what flows in, up to the capacity. */
  lemma {:induction false} LevelExactly(c: Config, s: State, t: real, u: real)
    requires Sane(c, s) && s.lastFill <= t <= u
    ensures Level(c, s, u) == Min(c.capacity, Level(c, s, t) + Flow(c, u - t))
  {
    FlowAdds(c, t - s.lastFill, u - t);
    FlowPositiveOrNone(c, u - t);
    FlowPositiveOrNone(c, t - s.lastFill);
  }

  /** After an hour without calls a bucket of newBucket is full again, however empty it was. */
  lemma {:induction false} FullInAnHour(perHour: int, s: State, t: real)
    requires perHour > 0
    requires var c := Config(perHour as real, perHour as real / 3600.0); Sane(c, s) && s.lastFill <= t
    ensures var c := Config(perHour as real, perHour as real / 3600.0);
      Level(c, s, t + 3600.0) == perHour as real
  {
    var c := Config(perHour as real, perHour as real / 3600.0);
    LevelExactly(c, s, t, t + 3600.0);
    LevelBounds(c, s, t);
    assert Flow(c, 3600.0) == perHour as real;
  }

  function Burst(at: real, n: nat): seq<Call> { seq(n, _ => TryTake(at)) }

  lemma {:induction false} GrantedInPrefix(c: Config, s: State, calls: seq<Call>, m: nat, i: nat)
    requires 0.0 < c.perSec && i < m <= |calls|
    ensures Granted(c, s, calls[..m], i) == Granted(c, s, calls, i)
  {
    assert calls[..m][..i] == calls[..i];
  }

  /** What n grants at one instant leave. */
  predicate Spent(c: Config, s: State, t: State, at: real, n: nat) {
    && Level(c, t, at) == Level(c, s, at) - n as real
    && Sane(c, t) && t.lastFill <= at && t.blockedUntil == s.blockedUntil
  }

  /** As many calls at one instant are granted as there are whole tokens, one after the
      other, and they leave the rest. */
  lemma {:induction false} BurstIsGranted(c: Config, s: State, at: real, n: nat)
    requires Sane(c, s) && s.lastFill <= at && !Blocked(s, at) && n as real <= Level(c, s, at)
    ensures Spent(c, s, After(c, s, Burst(at, n)), at, n)
    ensures forall i :: 0 <= i < n ==> Granted(c, s, Burst(at, n), i)
  {
    if n > 0 {
      assert Burst(at, n)[..n - 1] == Burst(at, n - 1);
      BurstIsGranted(c, s, at, n - 1);
      OneGrant(c, After(c, s, Burst(at, n - 1)), at);
      forall i | 0 <= i < n ensures Granted(c, s, Burst(at, n), i) {
        if i < n - 1 { GrantedInPrefix(c, s, Burst(at, n), n - 1, i); }
      }
    }
  }

  lemma {:induction false} OneGrant(c: Config, s: State, at: real)
    requires Sane(c, s) && s.lastFill <= at && !Blocked(s, at) && Level(c, s, at) >= 1.0
    ensures var (t, answer) := Take(c, s, at);
      && answer == Answer(true, 0.0) && Level(c, t, at) == Level(c, s, at) - 1.0
      && Sane(c, t) && t.lastFill <= at && t.blockedUntil == s.blockedUntil
  {
    LevelBounds(c, s, at);
  }

  /** A call that finds no whole token, or a block, is refused and takes none. */
  lemma {:induction false} RefusedTakesNone(c: Config, s: State, at: real)
    requires Sane(c, s) && s.lastFill <= at && (Blocked(s, at) || Level(c, s, at) < 1.0)
    ensures var (t, answer) := Take(c, s, at);
      !answer.granted && Level(c, t, at) == Level(c, s, at) && t.blockedUntil == s.blockedUntil
  {
    LevelBounds(c, s, at);
  }

  /** A fresh bucket grants a whole hour's calls in a burst, and not one more. */
  lemma {:induction false} FreshBurst(perHour: nat, at: real)
    requires perHour > 0
    ensures var c := Config(perHour as real, perHour as real / 3600.0);
      var s := State(perHour as real, at, None);
      && (forall i :: 0 <= i < perHour ==> Granted(c, s, Burst(at, perHour), i))
      && !Take(c, After(c, s, Burst(at, perHour)), at).1.granted
  {
    var c := Config(perHour as real, perHour as real / 3600.0);
    var s := State(perHour as real, at, None);
    BurstIsGranted(c, s, at, perHour);
    RefusedTakesNone(c, After(c, s, Burst(at, perHour)), at);
  }
}
