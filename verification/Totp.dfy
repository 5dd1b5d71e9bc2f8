/** The failure tracker that limits TOTP attempts.  Check and record are separate critical sections. */
module Totp {
  import opened Options

  const WINDOW := 5 * 60 * 1_000_000_000
  const LIMIT := 5

  datatype Tracker = Tracker(failures: nat, resetAt: int)

  function Lookup(attempts: map<string, Tracker>, key: string): Option<Tracker> {
    if key in attempts then Some(attempts[key]) else None
  }

  predicate Expired(t: Option<Tracker>, now: int) {
    t.None? || now > t.value.resetAt
  }

  predicate Allowed(t: Option<Tracker>, now: int) {
    Expired(t, now) || t.value.failures < LIMIT
  }

  function Recorded(t: Option<Tracker>, now: int, stamped: int): Tracker {
    if Expired(t, now) then Tracker(1, stamped + WINDOW)
    else Tracker(t.value.failures + 1, t.value.resetAt)
  }

  class AttemptLimiter {
    var attempts: map<string, Tracker>

    constructor ()
      ensures attempts == map[]
    {
      attempts := map[];
    }

    method CheckLimit(key: string, now: int) returns (allowed: bool)
      ensures allowed == Allowed(Lookup(attempts, key), now)
      ensures allowed <==> key !in attempts || attempts[key].resetAt < now || attempts[key].failures < 5
    {
      if key !in attempts || now > attempts[key].resetAt {
        return true;
      }
      return attempts[key].failures < LIMIT;
    }

    /** `now` is the reading that tests the window, `stamped` the one that opens a new window. */
    method RecordFailure(key: string, now: int, stamped: int)
      modifies this
      ensures attempts == old(attempts)[key := Recorded(Lookup(old(attempts), key), now, stamped)]
      ensures var t := attempts[key];
              if key in old(attempts) && now <= old(attempts)[key].resetAt
              then t.failures == old(attempts)[key].failures + 1 && t.resetAt == old(attempts)[key].resetAt
              else t.failures == 1 && t.resetAt == stamped + 300_000_000_000
    {
      if key !in attempts || now > attempts[key].resetAt {
        attempts := attempts[key := Tracker(1, stamped + WINDOW)];
        return;
      }
      var t := attempts[key];
      attempts := attempts[key := t.(failures := t.failures + 1)];
    }
  }

  // ---------------------------------------------------------------------------------------
  // Timed runs of concurrent logins
  // ---------------------------------------------------------------------------------------

  /** A critical section, or a login that leaves between the two with a valid code. */
  datatype Action =
    | Check(key: string, now: int)
    | Record(key: string, now: int, stamped: int)
    | Leave(key: string)

  /** `inFlight` holds for each login string the logins that passed the check and have neither
      recorded a failure nor left. */
  datatype State = State(attempts: map<string, Tracker>, inFlight: multiset<string>, clock: int)

  predicate Enabled(s: State, a: Action) {
    match a
    case Check(_, now) => s.clock <= now
    case Record(key, now, stamped) => key in s.inFlight && s.clock <= now <= stamped
    case Leave(key) => key in s.inFlight
  }

  function Next(s: State, a: Action): State {
    match a
    case Check(key, now) =>
      if Allowed(Lookup(s.attempts, key), now) then State(s.attempts, s.inFlight + multiset{key}, now)
      else State(s.attempts, s.inFlight, now)
    case Record(key, now, stamped) =>
      State(s.attempts[key := Recorded(Lookup(s.attempts, key), now, stamped)], s.inFlight - multiset{key}, stamped)
    case Leave(key) => State(s.attempts, s.inFlight - multiset{key}, s.clock)
  }

  ghost predicate IsRun(states: seq<State>, actions: seq<Action>) {
    && |states| == |actions| + 1
    && states[0].attempts == map[] && states[0].inFlight == multiset{}
    && forall i | 0 <= i < |actions| :: Enabled(states[i], actions[i]) && states[i + 1] == Next(states[i], actions[i])
  }

  /** At no moment are more than `k` logins with this string between check and record. */
  ghost predicate AtMostInFlight(states: seq<State>, key: string, k: nat) {
    forall i | 0 <= i < |states| :: states[i].inFlight[key] <= k
  }

  /** The failures recorded for `key` at times in [from, to] by the first `n` actions. */
  function RecordedIn(actions: seq<Action>, key: string, from: int, to: int, n: nat): nat
    requires n <= |actions|
  {
    if n == 0 then 0
    else RecordedIn(actions, key, from, to, n - 1) +
         (if actions[n - 1].Record? && actions[n - 1].key == key && from <= actions[n - 1].now <= to then 1 else 0)
  }

  // ---------------------------------------------------------------------------------------
  // The bounds
  // ---------------------------------------------------------------------------------------

  /** While the window lasts, the failures recorded and the logins in flight share its budget. */
  predicate Budget(s: State, key: string, k: nat) {
    var t := Lookup(s.attempts, key);
    t.Some? ==>
      && 1 <= t.value.failures <= LIMIT - 1 + k
      && (s.clock <= t.value.resetAt ==> t.value.failures + s.inFlight[key] <= LIMIT - 1 + k)
      && t.value.resetAt <= s.clock + WINDOW
  }

  lemma StepKeepsBudget(s: State, a: Action, key: string, k: nat)
    requires Enabled(s, a) && Budget(s, key, k)
    requires s.inFlight[key] <= k && Next(s, a).inFlight[key] <= k
    ensures Budget(Next(s, a), key, k)
  {
  }

  /** No tracker window ever records more than 4 + k failures. */
  lemma {:induction false} WindowBound(states: seq<State>, actions: seq<Action>, key: string, k: nat, n: nat)
    requires IsRun(states, actions) && AtMostInFlight(states, key, k) && n < |states|
    ensures Budget(states[n], key, k)
  {
    if n > 0 {
      WindowBound(states, actions, key, k, n - 1);
      assert states[n - 1].inFlight[key] <= k && states[n].inFlight[key] <= k;
      StepKeepsBudget(states[n - 1], actions[n - 1], key, k);
    }
  }

  /** What the interval [from, from + WINDOW] holds so far, by where the current window opened: one
      window can end in the interval, without its first failure, and one can begin in it. */
  predicate Spread(s: State, key: string, k: nat, from: int, recorded: nat) {
    && (s.clock < from ==> recorded == 0)
    && (match Lookup(s.attempts, key)
        case None => recorded == 0
        case Some(t) =>
          if t.resetAt - WINDOW < from then recorded <= t.failures - 1
          else if t.resetAt - WINDOW <= from + WINDOW then recorded <= LIMIT - 2 + k + t.failures
          else recorded <= 2 * (LIMIT - 1 + k) - 1)
  }

  lemma StepKeepsSpread(s: State, a: Action, key: string, k: nat, from: int, recorded: nat)
    requires Enabled(s, a) && Budget(s, key, k) && Budget(Next(s, a), key, k) && Spread(s, key, k, from, recorded)
    requires s.inFlight[key] <= k
    ensures Spread(Next(s, a), key, k, from, recorded +
                   (if a.Record? && a.key == key && from <= a.now <= from + WINDOW then 1 else 0))
  {
  }

  lemma StartIsSpread(s: State, key: string, k: nat, from: int)
    requires s.attempts == map[]
    ensures Spread(s, key, k, from, 0)
  {
  }

  /** Both states of a step are within the budget. */
  lemma StepBounds(states: seq<State>, actions: seq<Action>, key: string, k: nat, n: nat)
    requires IsRun(states, actions) && AtMostInFlight(states, key, k) && 0 < n < |states|
    ensures Budget(states[n - 1], key, k) && Budget(states[n], key, k)
  {
    WindowBound(states, actions, key, k, n - 1);
    WindowBound(states, actions, key, k, n);
  }

  lemma {:induction false} RunKeepsSpread(states: seq<State>, actions: seq<Action>, key: string, k: nat, from: int,
                                          n: nat)
    requires IsRun(states, actions) && AtMostInFlight(states, key, k) && n < |states|
    ensures Spread(states[n], key, k, from, RecordedIn(actions, key, from, from + WINDOW, n))
  {
    hide Spread;
    hide Budget;
    hide Enabled;
    hide Next;
    if n == 0 {
      StartIsSpread(states[0], key, k, from);
    } else {
      RunKeepsSpread(states, actions, key, k, from, n - 1);
      StepBounds(states, actions, key, k, n);
      assert states[n - 1].inFlight[key] <= k;
      StepKeepsSpread(states[n - 1], actions[n - 1], key, k, from,
                      RecordedIn(actions, key, from, from + WINDOW, n - 1));
    }
  }

  /** With at most k logins for one string between check and record, no closed interval of five
      minutes records more than 2 (4 + k) - 1 failures, which is 9 when logins are sequential. */
  lemma IntervalBound(states: seq<State>, actions: seq<Action>, key: string, k: nat, from: int)
    requires IsRun(states, actions) && AtMostInFlight(states, key, k)
    ensures RecordedIn(actions, key, from, from + WINDOW, |actions|) <= 2 * (LIMIT - 1 + k) - 1
    ensures RecordedIn(actions, key, from, from + 300_000_000_000, |actions|) <= 2 * (4 + k) - 1
  {
    RunKeepsSpread(states, actions, key, k, from, |actions|);
    WindowBound(states, actions, key, k, |actions|);
  }

  // ---------------------------------------------------------------------------------------
  // Several login strings
  // ---------------------------------------------------------------------------------------

  /** The failures recorded for any of the login strings. */
  function RecordedForAny(actions: seq<Action>, keys: set<string>, from: int, to: int, n: nat): nat
    requires n <= |actions|
  {
    if n == 0 then 0
    else RecordedForAny(actions, keys, from, to, n - 1) +
         (if actions[n - 1].Record? && actions[n - 1].key in keys && from <= actions[n - 1].now <= to then 1 else 0)
  }

  lemma {:induction false} RecordedSplits(actions: seq<Action>, keys: set<string>, key: string, from: int, to: int,
                                          n: nat)
    requires n <= |actions| && key in keys
    ensures RecordedForAny(actions, keys, from, to, n)
            == RecordedForAny(actions, keys - {key}, from, to, n) + RecordedIn(actions, key, from, to, n)
  {
    if n > 0 {
      RecordedSplits(actions, keys, key, from, to, n - 1);
    }
  }

  lemma {:induction false} RecordedForNone(actions: seq<Action>, from: int, to: int, n: nat)
    requires n <= |actions|
    ensures RecordedForAny(actions, {}, from, to, n) == 0
  {
    if n > 0 {
      RecordedForNone(actions, from, to, n - 1);
    }
  }

  /** The tracker counts for each login string by itself, so the bound grows with their number. */
  lemma {:induction false} BoundForAny(states: seq<State>, actions: seq<Action>, keys: set<string>, k: nat, from: int)
    requires IsRun(states, actions) && forall key | key in keys :: AtMostInFlight(states, key, k)
    ensures RecordedForAny(actions, keys, from, from + WINDOW, |actions|) <= |keys| * (2 * (LIMIT - 1 + k) - 1)
    decreases |keys|
  {
    hide IsRun;
    hide AtMostInFlight;
    if keys == {} {
      RecordedForNone(actions, from, from + WINDOW, |actions|);
    } else {
      var key :| key in keys;
      RecordedSplits(actions, keys, key, from, from + WINDOW, |actions|);
      IntervalBound(states, actions, key, k, from);
      BoundForAny(states, actions, keys - {key}, k, from);
      OneTimesMore(|keys - {key}|, 2 * (LIMIT - 1 + k) - 1);
    }
  }

  lemma OneTimesMore(n: nat, bound: nat)
    ensures (n + 1) * bound == n * bound + bound
  {
  }

  // ---------------------------------------------------------------------------------------
  // The bound is reached
  // ---------------------------------------------------------------------------------------

  ghost predicate FewInFlight(states: seq<State>, keys: set<string>, k: nat) {
    forall key | key in keys :: AtMostInFlight(states, key, k)
  }

  /** Some run with these actions ends in `s`, keeps at most `k` logins for each of the keys in flight, and
      records `recorded` failures for them in the interval. */
  ghost predicate Built(actions: seq<Action>, s: State, keys: set<string>, k: nat, from: int, recorded: nat) {
    exists states :: IsRun(states, actions) && states[|actions|] == s && FewInFlight(states, keys, k)
                     && RecordedForAny(actions, keys, from, from + WINDOW, |actions|) == recorded
  }

  lemma {:induction false} RecordedInPrefix(actions: seq<Action>, a: Action, keys: set<string>, from: int, to: int,
                                            n: nat)
    requires n <= |actions|
    ensures RecordedForAny(actions + [a], keys, from, to, n) == RecordedForAny(actions, keys, from, to, n)
  {
    if n > 0 {
      RecordedInPrefix(actions, a, keys, from, to, n - 1);
    }
  }

  lemma Extend(actions: seq<Action>, s: State, keys: set<string>, k: nat, from: int, recorded: nat, a: Action)
    requires Built(actions, s, keys, k, from, recorded) && Enabled(s, a)
    requires forall key | key in keys :: Next(s, a).inFlight[key] <= k
    ensures Built(actions + [a], Next(s, a), keys, k, from,
                  recorded + (if a.Record? && a.key in keys && from <= a.now <= from + WINDOW then 1 else 0))
  {
    hide Next;
    hide Enabled;
    var states :| IsRun(states, actions) && states[|actions|] == s && FewInFlight(states, keys, k)
                  && RecordedForAny(actions, keys, from, from + WINDOW, |actions|) == recorded;
    var longer := states + [Next(s, a)];
    RecordedInPrefix(actions, a, keys, from, from + WINDOW, |actions|);
    assert IsRun(longer, actions + [a]);
    forall key | key in keys ensures AtMostInFlight(longer, key, k) {
      assert AtMostInFlight(states, key, k);
    }
  }

  /** Nothing changed for any other key. */
  ghost predicate Others(s: State, after: State, key: string) {
    && (forall other | other != key :: Lookup(after.attempts, other) == Lookup(s.attempts, other))
    && (forall other | other != key :: after.inFlight[other] == s.inFlight[other])
  }

  ghost predicate Rest(s: State) {
    forall key :: s.inFlight[key] == 0
  }

  /** One failing login. */
  lemma FailOnce(actions: seq<Action>, s: State, keys: set<string>, key: string, k: nat, from: int, recorded: nat,
                 now: int)
    returns (more: seq<Action>, after: State)
    requires Built(actions, s, keys, k, from, recorded) && k >= 1 && key in keys && Rest(s)
    requires s.clock <= now && Allowed(Lookup(s.attempts, key), now)
    ensures Built(more, after, keys, k, from, recorded + (if from <= now <= from + WINDOW then 1 else 0))
    ensures Lookup(after.attempts, key) == Some(Recorded(Lookup(s.attempts, key), now, now))
    ensures Others(s, after, key) && Rest(after) && after.clock == now
  {
    hide Built;
    hide Recorded;
    Extend(actions, s, keys, k, from, recorded, Check(key, now));
    var checked := Next(s, Check(key, now));
    Extend(actions + [Check(key, now)], checked, keys, k, from, recorded, Record(key, now, now));
    more, after := actions + [Check(key, now)] + [Record(key, now, now)], Next(checked, Record(key, now, now));
  }

  /** `n` failing logins one after the other in an open window, at one reading of the clock. */
  lemma {:induction false} FailInTurn(actions: seq<Action>, s: State, keys: set<string>, key: string, k: nat, from: int,
                                      recorded: nat, failures: nat, resetAt: int, now: int, n: nat)
    returns (more: seq<Action>, after: State)
    requires Built(actions, s, keys, k, from, recorded) && k >= 1 && key in keys && Rest(s)
    requires Lookup(s.attempts, key) == Some(Tracker(failures, resetAt))
    requires s.clock <= now <= resetAt && from <= now <= from + WINDOW && failures + n <= LIMIT
    ensures Built(more, after, keys, k, from, recorded + n)
    ensures Lookup(after.attempts, key) == Some(Tracker(failures + n, resetAt))
    ensures Others(s, after, key) && Rest(after) && after.clock == if n == 0 then s.clock else now
    decreases n
  {
    hide Built;
    hide Rest;
    if n == 0 {
      more, after := actions, s;
    } else {
      var actions1, s1 := FailOnce(actions, s, keys, key, k, from, recorded, now);
      more, after := FailInTurn(actions1, s1, keys, key, k, from, recorded + 1, failures + 1, resetAt, now, n - 1);
    }
  }

  /** `n` logins that all pass the check before any of them records. */
  lemma {:induction false} CheckTogether(actions: seq<Action>, s: State, keys: set<string>, key: string, k: nat,
                                         from: int, recorded: nat, now: int, n: nat)
    returns (more: seq<Action>, after: State)
    requires Built(actions, s, keys, k, from, recorded) && s.clock == now && s.inFlight[key] + n <= k
    requires Allowed(Lookup(s.attempts, key), now) && forall other | other != key :: s.inFlight[other] == 0
    ensures Built(more, after, keys, k, from, recorded)
    ensures after == State(s.attempts, after.inFlight, now) && after.inFlight[key] == s.inFlight[key] + n
    ensures forall other | other != key :: after.inFlight[other] == 0
    decreases n
  {
    hide Built;
    if n == 0 {
      more, after := actions, s;
    } else {
      Extend(actions, s, keys, k, from, recorded, Check(key, now));
      more, after := CheckTogether(actions + [Check(key, now)], Next(s, Check(key, now)), keys, key, k, from, recorded,
                                   now, n - 1);
    }
  }

  lemma {:induction false} RecordTogether(actions: seq<Action>, s: State, keys: set<string>, key: string, k: nat,
                                          from: int, recorded: nat, failures: nat, resetAt: int, now: int)
    returns (more: seq<Action>, after: State)
    requires Built(actions, s, keys, k, from, recorded) && key in keys
    requires s.clock == now <= resetAt && s.inFlight[key] <= k
    requires forall other | other != key :: s.inFlight[other] == 0
    requires Lookup(s.attempts, key) == Some(Tracker(failures, resetAt)) && from <= now <= from + WINDOW
    ensures Built(more, after, keys, k, from, recorded + s.inFlight[key])
    ensures Lookup(after.attempts, key) == Some(Tracker(failures + s.inFlight[key], resetAt))
    ensures Others(s, after, key) && Rest(after) && after.clock == now
    decreases s.inFlight[key]
  {
    hide Built;
    if s.inFlight[key] == 0 {
      more, after := actions, s;
    } else {
      Extend(actions, s, keys, k, from, recorded, Record(key, now, now));
      more, after := RecordTogether(actions + [Record(key, now, now)], Next(s, Record(key, now, now)), keys, key, k,
                                    from, recorded + 1, failures + 1, resetAt, now);
    }
  }

  /** From the first failure of a window: three more in turn, then k at once. */
  lemma FillWindow(actions: seq<Action>, s: State, keys: set<string>, key: string, k: nat, from: int, recorded: nat,
                   resetAt: int, now: int)
    returns (more: seq<Action>, after: State)
    requires Built(actions, s, keys, k, from, recorded) && k >= 1 && key in keys && Rest(s)
    requires Lookup(s.attempts, key) == Some(Tracker(1, resetAt))
    requires s.clock <= now <= resetAt && from <= now <= from + WINDOW
    ensures Built(more, after, keys, k, from, recorded + 3 + k)
    ensures Lookup(after.attempts, key) == Some(Tracker(4 + k, resetAt))
    ensures Others(s, after, key) && Rest(after) && after.clock == now
  {
    hide Built;
    var actions1, s1 := FailInTurn(actions, s, keys, key, k, from, recorded, 1, resetAt, now, 3);
    var actions2, s2 := CheckTogether(actions1, s1, keys, key, k, from, recorded + 3, now, k);
    more, after := RecordTogether(actions2, s2, keys, key, k, from, recorded + 3, 4, resetAt, now);
  }

  /** A window that is opened and filled at one moment. */
  lemma OpenAndFill(actions: seq<Action>, s: State, keys: set<string>, key: string, k: nat, from: int, recorded: nat,
                    now: int)
    returns (more: seq<Action>, after: State)
    requires Built(actions, s, keys, k, from, recorded) && k >= 1 && key in keys && Rest(s)
    requires s.clock <= now && Expired(Lookup(s.attempts, key), now) && from <= now <= from + WINDOW
    ensures Built(more, after, keys, k, from, recorded + 4 + k)
    ensures Others(s, after, key) && Rest(after) && after.clock == now
  {
    hide Built;
    hide Rest;
    var actions1, s1 := FailOnce(actions, s, keys, key, k, from, recorded, now);
    more, after := FillWindow(actions1, s1, keys, key, k, from, recorded + 1, now + WINDOW, now);
  }

  // The same for every key, one key after the other.

  ghost predicate Unchanged(s: State, after: State, keys: set<string>) {
    forall key | key !in keys :: Lookup(after.attempts, key) == Lookup(s.attempts, key)
  }

  lemma {:induction false} OpenAll(actions: seq<Action>, s: State, keys: set<string>, k: nat, from: int, recorded: nat,
                                   now: int, todo: set<string>)
    returns (more: seq<Action>, after: State)
    requires Built(actions, s, keys, k, from, recorded) && k >= 1 && todo <= keys && Rest(s)
    requires s.clock <= now < from && forall key | key in todo :: Expired(Lookup(s.attempts, key), now)
    ensures Built(more, after, keys, k, from, recorded)
    ensures forall key | key in todo :: Lookup(after.attempts, key) == Some(Tracker(1, now + WINDOW))
    ensures Unchanged(s, after, todo) && Rest(after) && after.clock <= now
    decreases |todo|
  {
    hide Built;
    hide Rest;
    if todo == {} {
      more, after := actions, s;
    } else {
      var key :| key in todo;
      var actions1, s1 := FailOnce(actions, s, keys, key, k, from, recorded, now);
      more, after := OpenAll(actions1, s1, keys, k, from, recorded, now, todo - {key});
    }
  }

  lemma {:induction false} FillAll(actions: seq<Action>, s: State, keys: set<string>, k: nat, from: int, recorded: nat,
                                   resetAt: int, now: int, todo: set<string>)
    returns (more: seq<Action>, after: State)
    requires Built(actions, s, keys, k, from, recorded) && k >= 1 && todo <= keys && Rest(s)
    requires s.clock <= now <= resetAt && from <= now <= from + WINDOW
    requires forall key | key in todo :: Lookup(s.attempts, key) == Some(Tracker(1, resetAt))
    ensures Built(more, after, keys, k, from, recorded + |todo| * (3 + k))
    ensures forall key | key in todo :: Lookup(after.attempts, key) == Some(Tracker(4 + k, resetAt))
    ensures Unchanged(s, after, todo) && Rest(after) && after.clock <= now
    decreases |todo|
  {
    hide Built;
    hide Rest;
    if todo == {} {
      more, after := actions, s;
    } else {
      var key :| key in todo;
      var actions1, s1 := FillWindow(actions, s, keys, key, k, from, recorded, resetAt, now);
      more, after := FillAll(actions1, s1, keys, k, from, recorded + 3 + k, resetAt, now, todo - {key});
      OneTimesMore(|todo - {key}|, 3 + k);
    }
  }

  lemma {:induction false} OpenAndFillAll(actions: seq<Action>, s: State, keys: set<string>, k: nat, from: int,
                                          recorded: nat, now: int, todo: set<string>)
    returns (more: seq<Action>, after: State)
    requires Built(actions, s, keys, k, from, recorded) && k >= 1 && todo <= keys && Rest(s)
    requires s.clock <= now && from <= now <= from + WINDOW
    requires forall key | key in todo :: Expired(Lookup(s.attempts, key), now)
    ensures Built(more, after, keys, k, from, recorded + |todo| * (4 + k))
    decreases |todo|
  {
    hide Built;
    hide Rest;
    if todo == {} {
      more, after := actions, s;
    } else {
      var key :| key in todo;
      var actions1, s1 := OpenAndFill(actions, s, keys, key, k, from, recorded, now);
      more, after := OpenAndFillAll(actions1, s1, keys, k, from, recorded + 4 + k, now, todo - {key});
      OneTimesMore(|todo - {key}|, 4 + k);
    }
  }

  lemma TwoRounds(n: nat, k: nat)
    ensures n * (3 + k) + n * (4 + k) == n * (2 * (LIMIT - 1 + k) - 1)
  {
  }

  /** For every k >= 1 and all login strings some run with at most k logins for each in flight records
      exactly 2 (4 + k) - 1 failures for each in one closed five-minute interval, so the tracker does not
      enforce 5 attempts per 5 minutes. */
  lemma IntervalBoundIsReached(keys: set<string>, k: nat) returns (actions: seq<Action>, after: State, from: int)
    requires k >= 1
    ensures Built(actions, after, keys, k, from, |keys| * (2 * (LIMIT - 1 + k) - 1))
  {
    from := WINDOW;
    var start := State(map[], multiset{}, 0);
    assert IsRun([start], []) && FewInFlight([start], keys, k);
    assert Built([], start, keys, k, from, 0);
    hide Built;
    var actions1, s1 := OpenAll([], start, keys, k, from, 0, 0, keys);
    var actions2, s2 := FillAll(actions1, s1, keys, k, from, 0, WINDOW, WINDOW, keys);
    actions, after := OpenAndFillAll(actions2, s2, keys, k, from, |keys| * (3 + k), WINDOW + 1, keys);
    TwoRounds(|keys|, k);
  }
}
