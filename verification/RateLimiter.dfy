/** internal/eventbus/filter.go: the rate limiter that forgets keys whose cooldown is
    over, against one that never forgets. */
module RateLimiting {
  import opened Text

  /** Instants are nanoseconds since Go's zero time; durations are 64-bit and the
      difference of two instants saturates. */
  const MAX_DURATION: int := 0x7fff_ffff_ffff_ffff

  function Sub(t: nat, u: nat): int {
    if t - u > MAX_DURATION then MAX_DURATION
    else if t - u < -MAX_DURATION - 1 then -MAX_DURATION - 1
    else t - u
  }

  type Duration = d: int | -MAX_DURATION - 1 <= d <= MAX_DURATION

  function Key(eventType: string, source: string): string {
    eventType + ":" + source
  }

  /** A missing key reads as the zero time. */
  function LastOf(sent: map<string, nat>, key: string): nat {
    if key in sent then sent[key] else 0
  }

  datatype State = State(lastSent: map<string, nat>, lastPrune: nat)

  function Pruned(s: State, cooldown: Duration, now: nat): State {
    if Sub(now, s.lastPrune) < cooldown then s
    else State(map k | k in s.lastSent && Sub(now, s.lastSent[k]) < cooldown :: s.lastSent[k], now)
  }

  predicate Allowed(sent: map<string, nat>, cooldown: Duration, key: string, now: nat) {
    Sub(now, LastOf(sent, key)) >= cooldown
  }

  function Sent(sent: map<string, nat>, cooldown: Duration, key: string, now: nat): map<string, nat> {
    if Allowed(sent, cooldown, key, now) then sent[key := now] else sent
  }

  function After(s: State, cooldown: Duration, key: string, now: nat): State {
    var p := Pruned(s, cooldown, now);
    State(Sent(p.lastSent, cooldown, key, now), p.lastPrune)
  }

  class RateLimiter {
    var lastSent: map<string, nat>
    var lastPrune: nat
    const cooldown: Duration

    constructor (cooldown: Duration)
      ensures this.cooldown == cooldown && Value() == State(map[], 0)
    {
      this.cooldown := cooldown;
      lastSent, lastPrune := map[], 0;
    }

    ghost function Value(): State
      reads this
    {
      State(lastSent, lastPrune)
    }

    method PruneLocked(now: nat)
      modifies this
      ensures Value() == Pruned(old(Value()), cooldown, now)
    {
      if Sub(now, lastPrune) < cooldown {
        return;
      }
      lastPrune := now;
      var todo := lastSent.Keys;
      while todo != {}
        invariant todo <= old(lastSent).Keys && lastPrune == now
        invariant lastSent == map k | k in old(lastSent) && (k in todo || Sub(now, old(lastSent)[k]) < cooldown)
                                :: old(lastSent)[k]
        decreases todo
      {
        var k := Pick(todo);
        todo := todo - {k};
        if Sub(now, lastSent[k]) >= cooldown {
          lastSent := lastSent - {k};
        }
      }
    }

    method Allow(eventType: string, source: string, now: nat) returns (ok: bool)
      modifies this
      ensures Value() == After(old(Value()), cooldown, Key(eventType, source), now)
      ensures ok <==> Allowed(Pruned(old(Value()), cooldown, now).lastSent, cooldown, Key(eventType, source), now)
    {
      var key := eventType + ":" + source;
      PruneLocked(now);
      if Sub(now, LastOf(lastSent, key)) < cooldown {
        return false;
      }
      lastSent := lastSent[key := now];
      return true;
    }
  }

  // -------------------------------------------------------------- whole histories

  datatype Call = Call(key: string, now: nat)

  predicate Ordered(calls: seq<Call>) {
    forall i, j :: 0 <= i < j < |calls| ==> calls[i].now <= calls[j].now
  }

  /** The limiter after these calls. */
  function Limiter(cooldown: Duration, calls: seq<Call>): State {
    if calls == [] then State(map[], 0)
    else
      var c := calls[|calls| - 1];
      After(Limiter(cooldown, calls[..|calls| - 1]), cooldown, c.key, c.now)
  }

  /** A limiter that remembers every key for ever. */
  function Plain(cooldown: Duration, calls: seq<Call>): map<string, nat> {
    if calls == [] then map[]
    else
      var c := calls[|calls| - 1];
      Sent(Plain(cooldown, calls[..|calls| - 1]), cooldown, c.key, c.now)
  }

  /** The answers of the two limiters to the last call. */
  predicate Answer(cooldown: Duration, calls: seq<Call>)
    requires calls != []
  {
    var c := calls[|calls| - 1];
    Allowed(Pruned(Limiter(cooldown, calls[..|calls| - 1]), cooldown, c.now).lastSent, cooldown, c.key, c.now)
  }

  predicate PlainAnswer(cooldown: Duration, calls: seq<Call>)
    requires calls != []
  {
    var c := calls[|calls| - 1];
    Allowed(Plain(cooldown, calls[..|calls| - 1]), cooldown, c.key, c.now)
  }

  /** What was forgotten cannot matter at or after now. */
  ghost predicate Refines(small: map<string, nat>, full: map<string, nat>, cooldown: Duration, now: nat) {
    forall k :: k in full ==>
      if k in small then small[k] == full[k] else Sub(now, full[k]) >= cooldown
  }

  lemma SubMonotone(t: nat, t': nat, u: nat, u': nat)
    requires t <= t' && u' <= u
    ensures Sub(t, u) <= Sub(t', u')
  {
  }

  lemma PruneRefines(s: State, full: map<string, nat>, cooldown: Duration, before: nat, now: nat)
    requires before <= now && Refines(s.lastSent, full, cooldown, before) && s.lastSent.Keys <= full.Keys
    ensures Refines(Pruned(s, cooldown, now).lastSent, full, cooldown, now)
    ensures Pruned(s, cooldown, now).lastSent.Keys <= full.Keys
  {
    forall k | k in full && k !in s.lastSent ensures Sub(now, full[k]) >= cooldown {
      SubMonotone(before, now, full[k], full[k]);
    }
  }

  lemma SameAnswer(small: map<string, nat>, full: map<string, nat>, cooldown: Duration, key: string, now: nat)
    requires Refines(small, full, cooldown, now) && small.Keys <= full.Keys
    ensures Allowed(small, cooldown, key, now) <==> Allowed(full, cooldown, key, now)
    ensures Refines(Sent(small, cooldown, key, now), Sent(full, cooldown, key, now), cooldown, now)
    ensures Sent(small, cooldown, key, now).Keys <= Sent(full, cooldown, key, now).Keys
  {
    if key in full && key !in small {
      SubMonotone(now, now, full[key], 0);
    }
  }

  function LastTime(calls: seq<Call>): nat {
    if calls == [] then 0 else calls[|calls| - 1].now
  }

  /** Forgetting old keys never changes an answer. */
  lemma {:induction false} PruningInvisible(cooldown: Duration, calls: seq<Call>)
    requires Ordered(calls)
    ensures Refines(Limiter(cooldown, calls).lastSent, Plain(cooldown, calls), cooldown, LastTime(calls))
    ensures Limiter(cooldown, calls).lastSent.Keys <= Plain(cooldown, calls).Keys
    ensures calls != [] ==> (Answer(cooldown, calls) <==> PlainAnswer(cooldown, calls))
  {
    if calls != [] {
      var earlier, c := calls[..|calls| - 1], calls[|calls| - 1];
      PruningInvisible(cooldown, earlier);
      var s, full := Limiter(cooldown, earlier), Plain(cooldown, earlier);
      PruneRefines(s, full, cooldown, LastTime(earlier), c.now);
      SameAnswer(Pruned(s, cooldown, c.now).lastSent, full, cooldown, c.key, c.now);
    }
  }

  /** The plain limiter remembers the last allowed call of each key. */
  lemma {:induction false} PlainRemembers(cooldown: Duration, calls: seq<Call>, i: nat)
    requires Ordered(calls) && i < |calls| && PlainAnswer(cooldown, calls[..i + 1])
    ensures calls[i].key in Plain(cooldown, calls) && calls[i].now <= Plain(cooldown, calls)[calls[i].key]
  {
    var n := |calls| - 1;
    if i < n {
      assert calls[..n][..i + 1] == calls[..i + 1];
      PlainRemembers(cooldown, calls[..n], i);
    } else {
      assert calls[..i + 1] == calls;
    }
  }

  lemma PrefixOfPrefix<T>(s: seq<T>, n: nat, m: nat)
    requires n <= m <= |s|
    ensures s[..m][..n] == s[..n]
  {
  }

  /** Two allowed calls of one key are at least a cooldown apart. */
  lemma AllowsApart(cooldown: Duration, calls: seq<Call>, i: nat, j: nat)
    requires Ordered(calls) && i < j < |calls| && calls[i].key == calls[j].key
    requires Answer(cooldown, calls[..i + 1]) && Answer(cooldown, calls[..j + 1])
    ensures Sub(calls[j].now, calls[i].now) >= cooldown
  {
    PruningInvisible(cooldown, calls[..i + 1]);
    PruningInvisible(cooldown, calls[..j + 1]);
    PrefixOfPrefix(calls, i + 1, j);
    PrefixOfPrefix(calls, j, j + 1);
    PlainRemembers(cooldown, calls[..j], i);
    SubMonotone(calls[j].now, calls[j].now, Plain(cooldown, calls[..j])[calls[i].key], calls[i].now);
  }

  /** The plain limiter holds the time of an allowed call, or nothing when there was none. */
  lemma {:induction false} PlainHolds(cooldown: Duration, calls: seq<Call>, key: string)
    requires key in Plain(cooldown, calls)
    ensures exists i :: 0 <= i < |calls| && calls[i].key == key && PlainAnswer(cooldown, calls[..i + 1])
                        && Plain(cooldown, calls)[key] == calls[i].now
  {
    var n := |calls| - 1;
    if calls[n].key == key && PlainAnswer(cooldown, calls) {
      assert calls[..n + 1] == calls;
    } else {
      PlainHolds(cooldown, calls[..n], key);
      var i :| 0 <= i < n && calls[..n][i].key == key && PlainAnswer(cooldown, calls[..n][..i + 1])
            && Plain(cooldown, calls[..n])[key] == calls[..n][i].now;
      PrefixOfPrefix(calls, i + 1, n);
      assert calls[i].key == key;
    }
  }

  /** An allowed call of the same key less than a cooldown before call j. */
  ghost predicate Blocks(cooldown: Duration, calls: seq<Call>, i: nat, j: nat) {
    && i < j < |calls| && calls[i].key == calls[j].key
    && Answer(cooldown, calls[..i + 1]) && Sub(calls[j].now, calls[i].now) < cooldown
  }

  lemma AllowedUnblocked(cooldown: Duration, calls: seq<Call>, j: nat)
    requires Ordered(calls) && j < |calls| && Answer(cooldown, calls[..j + 1])
    ensures Sub(calls[j].now, 0) >= cooldown && forall i: nat :: !Blocks(cooldown, calls, i, j)
  {
    forall i: nat ensures !Blocks(cooldown, calls, i, j) {
      if Blocks(cooldown, calls, i, j) {
        AllowsApart(cooldown, calls, i, j);
      }
    }
    var p := Pruned(Limiter(cooldown, calls[..j + 1][..j]), cooldown, calls[j].now);
    SubMonotone(calls[j].now, calls[j].now, LastOf(p.lastSent, calls[j].key), 0);
  }

  lemma RefusedIsBlocked(cooldown: Duration, calls: seq<Call>, j: nat) returns (i: nat)
    requires Ordered(calls) && j < |calls| && !Answer(cooldown, calls[..j + 1]) && Sub(calls[j].now, 0) >= cooldown
    ensures Blocks(cooldown, calls, i, j)
  {
    PruningInvisible(cooldown, calls[..j + 1]);
    PrefixOfPrefix(calls, j, j + 1);
    i := PlainBlocks(cooldown, calls, j);
    PruningInvisible(cooldown, calls[..i + 1]);
  }

  /** The call the plain limiter remembers when it refuses call j. */
  lemma PlainBlocks(cooldown: Duration, calls: seq<Call>, j: nat) returns (i: nat)
    requires j < |calls| && Sub(calls[j].now, 0) >= cooldown
    requires !Allowed(Plain(cooldown, calls[..j]), cooldown, calls[j].key, calls[j].now)
    ensures i < j && calls[i].key == calls[j].key && PlainAnswer(cooldown, calls[..i + 1])
    ensures Sub(calls[j].now, calls[i].now) < cooldown
  {
    var key, full := calls[j].key, Plain(cooldown, calls[..j]);
    PlainHolds(cooldown, calls[..j], key);
    i :| 0 <= i < j && calls[..j][i].key == key && PlainAnswer(cooldown, calls[..j][..i + 1])
         && full[key] == calls[..j][i].now;
    PrefixOfPrefix(calls, i + 1, j);
  }

  /** A call is allowed exactly when no allowed call of its key was less than a cooldown
      ago, and the zero time was not, which a key never seen counts from. */
  lemma AllowedIff(cooldown: Duration, calls: seq<Call>, j: nat)
    requires Ordered(calls) && j < |calls|
    ensures Answer(cooldown, calls[..j + 1]) <==>
      Sub(calls[j].now, 0) >= cooldown && forall i: nat :: !Blocks(cooldown, calls, i, j)
  {
    if Answer(cooldown, calls[..j + 1]) {
      AllowedUnblocked(cooldown, calls, j);
    } else if Sub(calls[j].now, 0) >= cooldown {
      var i := RefusedIsBlocked(cooldown, calls, j);
    }
  }

  /** Less than a cooldown after the last pruning nothing is forgotten, and no key is
      forgotten that was allowed less than a cooldown ago. */
  lemma PrunesApart(s: State, cooldown: Duration, now: nat)
    ensures Sub(now, s.lastPrune) < cooldown ==> Pruned(s, cooldown, now) == s
    ensures forall k :: k in s.lastSent && k !in Pruned(s, cooldown, now).lastSent ==>
      Sub(now, s.lastPrune) >= cooldown && Sub(now, s.lastSent[k]) >= cooldown
  {
  }

  /** With a positive cooldown nothing as old as two cooldowns stays in the map. */
  lemma {:induction false} MapStaysYoung(cooldown: Duration, calls: seq<Call>)
    requires Ordered(calls) && cooldown > 0
    ensures var s := Limiter(cooldown, calls);
      && s.lastPrune <= LastTime(calls)
      && (calls != [] ==> LastTime(calls) - s.lastPrune < cooldown)
      && forall k :: k in s.lastSent ==>
           s.lastPrune - s.lastSent[k] < cooldown && LastTime(calls) - s.lastSent[k] < 2 * cooldown
  {
    if calls != [] {
      var earlier, c := calls[..|calls| - 1], calls[|calls| - 1];
      MapStaysYoung(cooldown, earlier);
      var s := Limiter(cooldown, earlier);
      var p := Pruned(s, cooldown, c.now);
      assert c.now - p.lastPrune < cooldown;
      assert forall k :: k in p.lastSent ==> p.lastPrune - p.lastSent[k] < cooldown;
    }
  }

  /** Keys of different events differ as long as event types hold no colon, which is
      true of every event type the panel defines. */
  lemma KeysDiffer(e: string, s: string, f: string, t: string)
    requires Free(e, ':') && Free(f, ':') && Key(e, s) == Key(f, t)
    ensures e == f && s == t
  {
    CutUnique(e, f, s, t, ':');
  }
}
