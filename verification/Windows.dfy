/** Go slices of timestamps: a window onto a backing array that other slices may share. */
module Slices {
  import opened Limits

  datatype Slice = Slice(backing: array<Time>, start: nat, length: nat)

  predicate Fits(s: Slice) {
    s.start + s.length <= s.backing.Length
  }

  ghost function Contents(s: Slice): seq<Time>
    requires Fits(s)
    reads s.backing
  {
    s.backing[s.start..s.start + s.length]
  }

  /** `append` of one element: in place when the backing array has room behind the slice,
      otherwise into a new array of any sufficient capacity. Nothing at or before the end of
      `s` is ever written. */
  method Append(s: Slice, x: Time) returns (r: Slice)
    requires Fits(s)
    modifies s.backing
    ensures Fits(r) && Contents(r) == old(Contents(s)) + [x]
    ensures r.backing == s.backing || fresh(r.backing)
    ensures r.backing == s.backing ==> r.start == s.start
    ensures forall i :: 0 <= i < s.start + s.length ==> s.backing[i] == old(s.backing[i])
  {
    if s.start + s.length < s.backing.Length {
      s.backing[s.start + s.length] := x;
      r := Slice(s.backing, s.start, s.length + 1);
    } else {
      var capacity: nat :| capacity > s.length;
      var grown := new Time[capacity](i requires 0 <= i reads s.backing =>
        if i < s.length then s.backing[s.start + i] else if i == s.length then x else ZERO_TIME);
      r := Slice(grown, 0, s.length + 1);
    }
  }
}

/** The sliding-window log of internal/limiter/window.go. */
module Windows {
  import opened Limits
  import opened Slices

  ghost predicate Sorted(log: seq<Time>) {
    forall i, j :: 0 <= i < j < |log| ==> log[i] <= log[j]
  }

  /** The log without the prefix that has aged out; an entry at the cutoff has left. */
  function Prune(log: seq<Time>, cutoff: int): seq<Time> {
    if |log| > 0 && log[0] <= cutoff then Prune(log[1..], cutoff) else log
  }

  function Copies(now: Time, n: nat): (s: seq<Time>)
    ensures |s| == n && forall i :: 0 <= i < n ==> s[i] == now
  {
    if n == 0 then [] else Copies(now, n - 1) + [now]
  }

  function NonNegative(x: int): int {
    if x < 0 then 0 else x
  }

  /** What the live part of a log says about a cost: the log to store and the decision. A cost
      above the count is refused before this is reached, which keeps the retry index in range. */
  function LiveVerdict(l: Limit, live: seq<Time>, now: Time, cost: nat): (r: (seq<Time>, Decision))
    requires 0 < l.count && cost <= l.count
    ensures r.1.allowed ==> r.1.retryAfter == 0
  {
    var used := |live|;
    var reset := if used > 0 then live[0] + l.period - now else 0;
    var remaining := NonNegative(l.count - used);
    if cost == 0 then
      (live, Decision(l.name, true, l.count, remaining, 0, reset))
    else if used + cost > l.count then
      (live, Decision(l.name, false, l.count, remaining,
                      live[used + cost - l.count - 1] + l.period - now, reset))
    else
      var full := live + Copies(now, cost);
      (full, Decision(l.name, true, l.count, l.count - |full|, 0, full[0] + l.period - now))
  }

  function WindowVerdict(l: Limit, log: seq<Time>, now: Time, cost: nat): (seq<Time>, Decision)
    requires 0 < l.count && cost <= l.count
  {
    LiveVerdict(l, Prune(log, now - l.period), now, cost)
  }

  /** The instant the log stops carrying information: when its newest entry ages out. */
  function WindowExpiry(period: int, log: seq<Time>): int {
    if |log| == 0 then ZERO_TIME else log[|log| - 1] + period
  }

  /** The scan that finds where the live part of a log starts. */
  method PruneScan(log: Slice, cutoff: int) returns (kept: Slice)
    requires Fits(log)
    ensures Fits(kept) && kept.backing == log.backing
    ensures kept.start + kept.length == log.start + log.length
    ensures Contents(kept) == Prune(Contents(log), cutoff)
  {
    ghost var entries := Contents(log);
    var drop := 0;
    while drop < log.length && log.backing[log.start + drop] <= cutoff
      invariant 0 <= drop <= log.length
      invariant Prune(entries, cutoff) == Prune(entries[drop..], cutoff)
    {
      assert entries[drop] == log.backing[log.start + drop];
      assert entries[drop..][1..] == entries[drop + 1..];
      drop := drop + 1;
    }
    kept := Slice(log.backing, log.start + drop, log.length - drop);
    assert Contents(kept) == entries[drop..];
  }

  /** One append per unit. Everything up to the end of `log` stays readable as it was. */
  method AppendCopies(log: Slice, now: Time, n: nat) returns (kept: Slice)
    requires Fits(log)
    modifies log.backing
    ensures Fits(kept) && Contents(kept) == old(Contents(log)) + Copies(now, n)
    ensures kept.backing == log.backing || fresh(kept.backing)
    ensures forall i :: 0 <= i < log.start + log.length ==> log.backing[i] == old(log.backing[i])
  {
    kept := log;
    for i := 0 to n
      invariant Fits(kept) && Contents(kept) == old(Contents(log)) + Copies(now, i)
      invariant kept.backing == log.backing || fresh(kept.backing)
      invariant kept.backing == log.backing ==> kept.start + kept.length >= log.start + log.length
      invariant forall i :: 0 <= i < log.start + log.length ==> log.backing[i] == old(log.backing[i])
    {
      kept := Append(kept, now);
      assert Copies(now, i) + [now] == Copies(now, i + 1);
    }
  }

  /** The source's two loops over a slice that shares its backing array with the stored log.
      The stored slice `log` still reads the same afterwards, whether or not the appends
      landed in its own array. */
  method WindowCheck(l: Limit, log: Slice, now: Time, cost: nat) returns (kept: Slice, d: Decision)
    requires 0 < l.count && cost <= l.count
    requires Fits(log)
    modifies log.backing
    ensures Fits(kept) && (Contents(kept), d) == WindowVerdict(l, old(Contents(log)), now, cost)
    ensures kept.backing == log.backing || fresh(kept.backing)
    ensures Contents(log) == old(Contents(log))
    ensures cost == 0 ==> unchanged(log.backing)
  {
    hide Prune;
    hide Copies;
    kept := PruneScan(log, now - l.period);
    ghost var live := Contents(kept);
    var used := kept.length;
    var reset := if used > 0 then kept.backing[kept.start] + l.period - now else 0;
    var remaining := NonNegative(l.count - used);
    if cost == 0 {
      d := Decision(l.name, true, l.count, remaining, 0, reset);
    } else if used + cost > l.count {
      var idx := used + cost - l.count - 1;
      d := Decision(l.name, false, l.count, remaining,
                    kept.backing[kept.start + idx] + l.period - now, reset);
    } else {
      kept := AppendCopies(kept, now, cost);
      assert kept.backing[kept.start] == Contents(kept)[0];
      d := Decision(l.name, true, l.count, l.count - kept.length, 0,
                    kept.backing[kept.start] + l.period - now);
    }
  }

  /** `windowExpiry` over a slice. */
  method ExpiryOf(period: int, log: Slice) returns (t: int)
    requires Fits(log)
    ensures t == WindowExpiry(period, Contents(log))
  {
    if log.length == 0 {
      return ZERO_TIME;
    }
    t := log.backing[log.start + log.length - 1] + period;
  }

  /* ---------- facts about pruning and counting ---------- */

  /** Where the kept part of a log starts. */
  lemma {:induction false} PrunePoint(log: seq<Time>, cutoff: int) returns (k: nat)
    ensures k <= |log| && Prune(log, cutoff) == log[k..]
    ensures forall i :: 0 <= i < k ==> log[i] <= cutoff
    ensures k < |log| ==> log[k] > cutoff
  {
    if |log| > 0 && log[0] <= cutoff {
      var j := PrunePoint(log[1..], cutoff);
      k := j + 1;
      assert forall i :: 0 < i < k ==> log[i] == log[1..][i - 1];
    } else {
      k := 0;
    }
  }

  lemma {:induction false} PruneTwice(log: seq<Time>, early: int, late: int)
    requires early <= late
    ensures Prune(Prune(log, early), late) == Prune(log, late)
  {
    if |log| > 0 && log[0] <= early {
      PruneTwice(log[1..], early, late);
    }
  }

  lemma PruneKeepsOrder(log: seq<Time>, cutoff: int)
    requires Sorted(log)
    ensures Sorted(Prune(log, cutoff))
    ensures |Prune(log, cutoff)| <= |log|
    ensures forall i :: 0 <= i < |Prune(log, cutoff)| ==> Prune(log, cutoff)[i] > cutoff
    ensures forall x :: x in Prune(log, cutoff) ==> x in log
  {
    var _ := PrunePoint(log, cutoff);
  }

  /** A log past its expiry is indistinguishable from no log. */
  lemma ExpiredLogIsEmpty(log: seq<Time>, period: int, now: Time)
    requires Sorted(log) && WindowExpiry(period, log) <= now
    ensures Prune(log, now - period) == []
  {
    var _ := PrunePoint(log, now - period);
  }

  /** Entries in the half-open window (after, upTo]. */
  function CountIn(log: seq<Time>, after: int, upTo: int): nat {
    if log == [] then 0
    else (if after < log[0] <= upTo then 1 else 0) + CountIn(log[1..], after, upTo)
  }

  lemma {:induction false} CountInConcat(a: seq<Time>, b: seq<Time>, after: int, upTo: int)
    ensures CountIn(a + b, after, upTo) == CountIn(a, after, upTo) + CountIn(b, after, upTo)
  {
    if a == [] {
      assert a + b == b;
    } else {
      assert (a + b)[1..] == a[1..] + b;
      CountInConcat(a[1..], b, after, upTo);
    }
  }

  lemma {:induction false} CountInCopies(now: Time, n: nat, after: int, upTo: int)
    ensures CountIn(Copies(now, n), after, upTo) == if after < now <= upTo then n else 0
  {
    if n > 0 {
      CountInConcat(Copies(now, n - 1), [now], after, upTo);
      CountInCopies(now, n - 1, after, upTo);
    }
  }

  lemma {:induction false} CountInAtMostLength(log: seq<Time>, after: int, upTo: int)
    ensures CountIn(log, after, upTo) <= |log|
    ensures (forall x :: x in log ==> after < x <= upTo) ==> CountIn(log, after, upTo) == |log|
  {
    if log != [] {
      CountInAtMostLength(log[1..], after, upTo);
      assert log[0] in log && forall x :: x in log[1..] ==> x in log;
    }
  }

  /** Pruning at or below a window's lower edge loses nothing that window counts. */
  lemma {:induction false} CountInIgnoresPruned(log: seq<Time>, cutoff: int, after: int, upTo: int)
    requires cutoff <= after
    ensures CountIn(Prune(log, cutoff), after, upTo) == CountIn(log, after, upTo)
  {
    if |log| > 0 && log[0] <= cutoff {
      CountInIgnoresPruned(log[1..], cutoff, after, upTo);
    }
  }

  /* ---------- retry exactness ---------- */

  /** How many entries are left at a later instant, by position: the log has room again exactly
      when the entry that stands in the way has aged out. */
  lemma RoomByPosition(live: seq<Time>, cutoff: int, idx: nat)
    requires Sorted(live) && idx < |live|
    ensures |Prune(live, cutoff)| < |live| - idx <==> live[idx] <= cutoff
  {
    var _ := PrunePoint(live, cutoff);
  }

  /** Waiting exactly `retryAfter` is both necessary and enough. */
  lemma WindowRetryIsExact(l: Limit, log: seq<Time>, now: Time, later: Time, cost: nat)
    requires 0 < l.count && cost <= l.count && now <= later && Sorted(log)
    ensures WindowVerdict(l, log, later, cost).1.allowed
            <==> later >= now + WindowVerdict(l, log, now, cost).1.retryAfter
    ensures WindowVerdict(l, log, now, cost).1.retryAfter >= 0
    ensures WindowVerdict(l, log, now, cost).1.allowed <==> WindowVerdict(l, log, now, cost).1.retryAfter == 0
  {
    var live := Prune(log, now - l.period);
    PruneKeepsOrder(log, now - l.period);
    PruneTwice(log, now - l.period, later - l.period);
    PruneKeepsOrder(live, later - l.period);
    if cost > 0 && |live| + cost > l.count {
      RoomByPosition(live, later - l.period, |live| + cost - l.count - 1);
    }
  }
}
