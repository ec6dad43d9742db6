// The per-user ticket limiter of services/notes/cmd/main.go: at most ten allowed
// requests per user in any minute, kept in slices that are compacted in place.
// A request reads the clock before it takes the lock, so readings may go back.

module TicketLimiter {

  type UserId = nat

  // Nanoseconds.
  const LIMIT: nat := 10
  const WINDOW := 60 * 1_000_000_000

  // A request in the order the lock was taken, with its clock reading.
  datatype Request = Request(user: UserId, at: int)

  // ---------- the rule over the whole history ----------

  /** The times after `cutoff`, in order. */
  function Recent(ts: seq<int>, cutoff: int): seq<int> {
    if ts == [] then [] else
    var before, last := Recent(ts[..|ts| - 1], cutoff), ts[|ts| - 1];
    if last > cutoff then before + [last] else before
  }

  /** Fewer than ten of the user's allowed requests are later than a minute ago. */
  predicate MayPass(history: seq<int>, now: int) {
    |Recent(history, now - WINDOW)| < LIMIT
  }

  /** The times of the requests the rule allows the user. */
  function History(requests: seq<Request>, user: UserId): seq<int> {
    if requests == [] then [] else
    var before, last := History(requests[..|requests| - 1], user), requests[|requests| - 1];
    if last.user == user && MayPass(before, last.at) then before + [last.at] else before
  }

  // ---------- what the limiter keeps instead ----------

  /** The user's slice: each of the user's requests evicts what is a minute older than its own reading. */
  function Slice(requests: seq<Request>, user: UserId): seq<int> {
    if requests == [] then [] else
    var before, last := Slice(requests[..|requests| - 1], user), requests[|requests| - 1];
    if last.user != user then before else
    var kept := Recent(before, last.at - WINDOW);
    if |kept| < LIMIT then kept + [last.at] else kept
  }

  predicate Passes(requests: seq<Request>, user: UserId, now: int) {
    |Recent(Slice(requests, user), now - WINDOW)| < LIMIT
  }

  /** The times of the requests the limiter allowed the user. */
  function Allowed(requests: seq<Request>, user: UserId): seq<int> {
    if requests == [] then [] else
    var rest, last := requests[..|requests| - 1], requests[|requests| - 1];
    if last.user == user && Passes(rest, user, last.at) then Allowed(rest, user) + [last.at] else Allowed(rest, user)
  }

  predicate AllowedAt(requests: seq<Request>, user: UserId, j: nat)
    requires j < |requests|
  {
    requests[j].user == user && Passes(requests[..j], user, requests[j].at)
  }

  /** A request of the user's that was served later read the clock at least a minute ahead. */
  predicate Overtaken(requests: seq<Request>, user: UserId, j: nat)
    requires j < |requests|
  {
    exists i :: j < i < |requests| && requests[i].user == user && requests[j].at + 60_000_000_000 <= requests[i].at
  }

  /** The allowed times among the first `n` requests that no later reading overtook. */
  function Kept(requests: seq<Request>, user: UserId, n: nat): seq<int>
    requires n <= |requests|
  {
    if n == 0 then []
    else if AllowedAt(requests, user, n - 1) && !Overtaken(requests, user, n - 1) then
      Kept(requests, user, n - 1) + [requests[n - 1].at]
    else Kept(requests, user, n - 1)
  }

  /** Those that one overtook. */
  function Evicted(requests: seq<Request>, user: UserId, n: nat): seq<int>
    requires n <= |requests|
  {
    if n == 0 then []
    else if AllowedAt(requests, user, n - 1) && Overtaken(requests, user, n - 1) then
      Evicted(requests, user, n - 1) + [requests[n - 1].at]
    else Evicted(requests, user, n - 1)
  }

  lemma RecentSnoc(ts: seq<int>, t: int, cutoff: int)
    ensures Recent(ts + [t], cutoff) == Recent(ts, cutoff) + (if t > cutoff then [t] else [])
  {
    assert (ts + [t])[..|ts + [t]| - 1] == ts;
  }

  lemma SliceSnoc(requests: seq<Request>, r: Request, user: UserId)
    ensures var kept := Recent(Slice(requests, user), r.at - WINDOW);
            Slice(requests + [r], user) ==
              if r.user != user then Slice(requests, user) else if |kept| < LIMIT then kept + [r.at] else kept
  {
    assert (requests + [r])[..|requests|] == requests;
  }

  lemma OthersKept(requests: seq<Request>, r: Request)
    ensures forall u :: u != r.user ==> Slice(requests + [r], u) == Slice(requests, u)
  {
    assert (requests + [r])[..|requests|] == requests;
  }

  lemma AllowedSnoc(requests: seq<Request>, r: Request, user: UserId)
    ensures Allowed(requests + [r], user) ==
      if r.user == user && Passes(requests, user, r.at) then Allowed(requests, user) + [r.at] else Allowed(requests, user)
  {
    assert (requests + [r])[..|requests|] == requests;
  }

  lemma HistorySnoc(requests: seq<Request>, r: Request, user: UserId)
    ensures History(requests + [r], user) ==
      if r.user == user && MayPass(History(requests, user), r.at) then History(requests, user) + [r.at]
      else History(requests, user)
  {
    assert (requests + [r])[..|requests|] == requests;
  }

  /** Which times are recent: those later than the cutoff, each as often as it occurs. */
  lemma {:induction false} RecentIs(ts: seq<int>, cutoff: int, t: int)
    ensures multiset(Recent(ts, cutoff))[t] == if t > cutoff then multiset(ts)[t] else 0
  {
    if ts != [] {
      var before, last := ts[..|ts| - 1], ts[|ts| - 1];
      RecentIs(before, cutoff, t);
      assert ts == before + [last];
    }
  }

  /** A request passes exactly when fewer than ten of the user's allowed times that no later reading overtook are
      less than a minute old by its own reading. */
  lemma PassesIff(requests: seq<Request>, user: UserId, now: int)
    ensures Passes(requests, user, now) <==> |Recent(Kept(requests, user, |requests|), now - 60_000_000_000)| < 10
  {
    SliceIsKept(requests, user);
  }

  /** One more request of the user's own overtakes what is a minute older than its reading. */
  lemma {:induction false} KeptAfter(requests: seq<Request>, r: Request, user: UserId, n: nat)
    requires n <= |requests|
    ensures Kept(requests + [r], user, n) ==
      if r.user == user then Recent(Kept(requests, user, n), r.at - WINDOW) else Kept(requests, user, n)
  {
    if n > 0 {
      var j := n - 1;
      KeptAfter(requests, r, user, j);
      assert (requests + [r])[..j] == requests[..j];
      OvertakenAfter(requests, r, user, j);
      RecentSnoc(Kept(requests, user, j), requests[j].at, r.at - WINDOW);
    }
  }

  lemma OvertakenAfter(requests: seq<Request>, r: Request, user: UserId, j: nat)
    requires j < |requests|
    ensures Overtaken(requests + [r], user, j) <==>
      Overtaken(requests, user, j) || (r.user == user && requests[j].at <= r.at - WINDOW)
  {
    var all := requests + [r];
    if Overtaken(requests, user, j) {
      var i :| j < i < |requests| && requests[i].user == user && requests[j].at + 60_000_000_000 <= requests[i].at;
      assert all[i] == requests[i];
    }
    assert all[|requests|] == r;
  }

  /** The slice holds exactly the allowed times that no later reading overtook. */
  lemma {:induction false} SliceIsKept(requests: seq<Request>, user: UserId)
    ensures Slice(requests, user) == Kept(requests, user, |requests|)
    decreases |requests|
  {
    if requests != [] {
      var n := |requests| - 1;
      var rest, last := requests[..n], requests[n];
      SliceIsKept(rest, user);
      KeptAfter(rest, last, user, n);
      assert requests == rest + [last];
      LastKept(requests, user);
    }
  }

  lemma LastKept(requests: seq<Request>, user: UserId)
    requires requests != []
    ensures var n := |requests| - 1;
            Kept(requests, user, |requests|) ==
              if AllowedAt(requests, user, n) then Kept(requests, user, n) + [requests[n].at] else Kept(requests, user, n)
  {
  }

  /** The allowed times among the first `n` requests. */
  function AllowedUpTo(requests: seq<Request>, user: UserId, n: nat): seq<int>
    requires n <= |requests|
  {
    if n == 0 then []
    else if AllowedAt(requests, user, n - 1) then AllowedUpTo(requests, user, n - 1) + [requests[n - 1].at]
    else AllowedUpTo(requests, user, n - 1)
  }

  lemma {:induction false} AllowedByIndex(requests: seq<Request>, user: UserId, n: nat)
    requires n <= |requests|
    ensures AllowedUpTo(requests, user, n) == Allowed(requests[..n], user)
  {
    if n > 0 {
      AllowedByIndex(requests, user, n - 1);
      assert requests[..n][..n - 1] == requests[..n - 1];
    }
  }

  /** Every allowed time is kept or evicted, and counts once. */
  lemma {:induction false} KeptOrEvicted(requests: seq<Request>, user: UserId, n: nat, c: int)
    requires n <= |requests|
    ensures |Recent(AllowedUpTo(requests, user, n), c)|
         == |Recent(Kept(requests, user, n), c)| + |Recent(Evicted(requests, user, n), c)|
  {
    if n > 0 {
      KeptOrEvicted(requests, user, n - 1, c);
      OneMoreIndex(requests, user, n - 1);
      OneMoreCounted(AllowedUpTo(requests, user, n - 1), Kept(requests, user, n - 1), Evicted(requests, user, n - 1),
                     requests[n - 1].at, c);
    }
  }

  lemma OneMoreIndex(requests: seq<Request>, user: UserId, j: nat)
    requires j < |requests|
    ensures var allowed, kept, gone := AllowedUpTo(requests, user, j), Kept(requests, user, j), Evicted(requests, user, j);
            var allowed1, kept1, gone1 :=
              AllowedUpTo(requests, user, j + 1), Kept(requests, user, j + 1), Evicted(requests, user, j + 1);
            var t := [requests[j].at];
            || (allowed1 == allowed && kept1 == kept && gone1 == gone)
            || (allowed1 == allowed + t && kept1 == kept + t && gone1 == gone)
            || (allowed1 == allowed + t && kept1 == kept && gone1 == gone + t)
  {
  }

  lemma OneMoreCounted(allowed: seq<int>, kept: seq<int>, gone: seq<int>, at: int, c: int)
    requires |Recent(allowed, c)| == |Recent(kept, c)| + |Recent(gone, c)|
    ensures |Recent(allowed + [at], c)| == |Recent(kept + [at], c)| + |Recent(gone, c)|
    ensures |Recent(allowed + [at], c)| == |Recent(kept, c)| + |Recent(gone + [at], c)|
  {
    RecentSnoc(allowed, at, c);
    RecentSnoc(kept, at, c);
    RecentSnoc(gone, at, c);
  }

  // ---------- when the limiter follows the rule ----------

  /** Within the last minute fewer than ten allowed times were not overtaken, but with those that were there
      are ten. */
  predicate Misses(requests: seq<Request>, user: UserId, now: int) {
    var kept := |Recent(Kept(requests, user, |requests|), now - 60_000_000_000)|;
    var gone := |Recent(Evicted(requests, user, |requests|), now - 60_000_000_000)|;
    kept < 10 <= kept + gone
  }

  /** One answer is the rule's over everything allowed so far, unless overtaken times would have made it ten. */
  lemma AnswersAgreeIff(requests: seq<Request>, user: UserId, now: int)
    ensures (Passes(requests, user, now) <==> MayPass(Allowed(requests, user), now))
       <==> !Misses(requests, user, now)
  {
    SliceIsKept(requests, user);
    KeptOrEvicted(requests, user, |requests|, now - WINDOW);
    AllowedByIndex(requests, user, |requests|);
    assert requests[..|requests|] == requests;
  }

  ghost predicate NeverMisses(requests: seq<Request>, user: UserId) {
    forall i :: 0 <= i < |requests| && requests[i].user == user ==> !Misses(requests[..i], user, requests[i].at)
  }

  ghost predicate FollowsRule(requests: seq<Request>, user: UserId) {
    forall i :: 0 <= i <= |requests| ==> Allowed(requests[..i], user) == History(requests[..i], user)
  }

  lemma {:induction false} NeverMissingFollows(requests: seq<Request>, user: UserId)
    requires NeverMisses(requests, user)
    ensures Allowed(requests, user) == History(requests, user)
    decreases |requests|
  {
    if requests != [] {
      var n := |requests| - 1;
      var rest := requests[..n];
      assert forall i :: 0 <= i < n ==> rest[..i] == requests[..i];
      NeverMissingFollows(rest, user);
      FollowsOneMore(rest, requests[n], user);
      assert requests == rest + [requests[n]];
    }
  }

  lemma FollowsOneMore(requests: seq<Request>, r: Request, user: UserId)
    requires Allowed(requests, user) == History(requests, user)
    requires r.user == user ==> !Misses(requests, user, r.at)
    ensures Allowed(requests + [r], user) == History(requests + [r], user)
  {
    AllowedSnoc(requests, r, user);
    HistorySnoc(requests, r, user);
    AnswersAgreeIff(requests, user, r.at);
  }

  /** The limiter allows a user exactly what the full-history rule allows, all along a run, exactly when no
      request of that user misses. */
  lemma LimiterFollowsRuleIff(requests: seq<Request>, user: UserId)
    ensures FollowsRule(requests, user) <==> NeverMisses(requests, user)
  {
    if NeverMisses(requests, user) {
      forall i | 0 <= i <= |requests|
        ensures Allowed(requests[..i], user) == History(requests[..i], user)
      {
        var p := requests[..i];
        assert forall j :: 0 <= j < i ==> p[..j] == requests[..j];
        NeverMissingFollows(p, user);
      }
    }
    if FollowsRule(requests, user) {
      forall i | 0 <= i < |requests| && requests[i].user == user
        ensures !Misses(requests[..i], user, requests[i].at)
      {
        var p, q := requests[..i], requests[..i + 1];
        assert q[..i] == p;
        assert Allowed(p, user) == History(p, user) && Allowed(q, user) == History(q, user);
        AnswersAgreeIff(p, user, requests[i].at);
      }
    }
  }

  /** The user's readings do not go back in lock order. */
  ghost predicate InOrder(requests: seq<Request>, user: UserId) {
    forall i, j :: 0 <= i < j < |requests| && requests[i].user == user == requests[j].user
      ==> requests[i].at <= requests[j].at
  }

  /** Overtaken times are a minute behind some reading of the user's. */
  lemma {:induction false} EvictedAreBehind(requests: seq<Request>, user: UserId, n: nat, now: int)
    requires n <= |requests|
    requires forall i :: 0 <= i < |requests| && requests[i].user == user ==> requests[i].at <= now
    ensures Recent(Evicted(requests, user, n), now - WINDOW) == []
  {
    if n > 0 {
      EvictedAreBehind(requests, user, n - 1, now);
      RecentSnoc(Evicted(requests, user, n - 1), requests[n - 1].at, now - WINDOW);
    }
  }

  /** With readings that do not go back, the compacted slices follow the full-history rule. */
  lemma InOrderFollowsRule(requests: seq<Request>, user: UserId)
    requires InOrder(requests, user)
    ensures NeverMisses(requests, user) && FollowsRule(requests, user)
  {
    forall i | 0 <= i < |requests| && requests[i].user == user
      ensures !Misses(requests[..i], user, requests[i].at)
    {
      EvictedAreBehind(requests[..i], user, i, requests[i].at);
    }
    LimiterFollowsRuleIff(requests, user);
  }

  // ---------- ten per minute ----------

  /** The times in the half-open minute after `w`. */
  function InWindow(ts: seq<int>, w: int): seq<int> {
    if ts == [] then [] else
    var before, last := InWindow(ts[..|ts| - 1], w), ts[|ts| - 1];
    if w < last <= w + 60_000_000_000 then before + [last] else before
  }

  lemma InWindowSnoc(ts: seq<int>, t: int, w: int)
    ensures InWindow(ts + [t], w) == InWindow(ts, w) + (if w < t <= w + WINDOW then [t] else [])
  {
    assert (ts + [t])[..|ts + [t]| - 1] == ts;
  }

  lemma {:induction false} WindowWithinRecent(ts: seq<int>, w: int, cutoff: int)
    requires cutoff <= w
    ensures |InWindow(ts, w)| <= |Recent(ts, cutoff)|
  {
    if ts != [] {
      WindowWithinRecent(ts[..|ts| - 1], w, cutoff);
    }
  }

  lemma {:induction false} RuleBoundsWindows(requests: seq<Request>, user: UserId, w: int)
    ensures |InWindow(History(requests, user), w)| <= LIMIT
    decreases |requests|
  {
    if requests != [] {
      var before, last := requests[..|requests| - 1], requests[|requests| - 1];
      RuleBoundsWindows(before, user, w);
      var h := History(before, user);
      if last.user == user && MayPass(h, last.at) {
        InWindowSnoc(h, last.at, w);
        if w < last.at <= w + WINDOW {
          WindowWithinRecent(h, w, last.at - WINDOW);
        }
      }
    }
  }

  /** When no request of the user's misses, no half-open minute, wherever it starts, holds more than ten of the
      requests the limiter allowed them; and none misses when readings do not go back. */
  lemma AtMostTenPerMinute(requests: seq<Request>, user: UserId, w: int)
    requires NeverMisses(requests, user)
    ensures |InWindow(Allowed(requests, user), w)| <= 10
  {
    NeverMissingFollows(requests, user);
    RuleBoundsWindows(requests, user, w);
  }

  function Times(n: nat, t: int): seq<int> {
    seq(n, _ => t)
  }

  lemma {:induction false} RepeatedTime(n: nat, t: int, cutoff: int, w: int)
    requires w < t <= w + WINDOW
    ensures Recent(Times(n, t), cutoff) == if t > cutoff then Times(n, t) else []
    ensures InWindow(Times(n, t), w) == Times(n, t)
  {
    if n > 0 {
      RepeatedTime(n - 1, t, cutoff, w);
      RecentSnoc(Times(n - 1, t), t, cutoff);
      InWindowSnoc(Times(n - 1, t), t, w);
      assert Times(n, t) == Times(n - 1, t) + [t];
    }
  }

  /** Less than ten times, all recent, let one more pass. */
  lemma AllRecentPasses(requests: seq<Request>, r: Request, ts: seq<int>)
    requires Slice(requests, r.user) == ts && Allowed(requests, r.user) == ts
    requires Recent(ts, r.at - WINDOW) == ts && |ts| < LIMIT
    ensures Slice(requests + [r], r.user) == ts + [r.at] && Allowed(requests + [r], r.user) == ts + [r.at]
  {
    SliceSnoc(requests, r, r.user);
    AllowedSnoc(requests, r, r.user);
  }

  /** Up to ten requests at one time all pass. */
  lemma {:induction false} TogetherAllowed(user: UserId, t: int, n: nat) returns (requests: seq<Request>)
    requires n <= LIMIT
    ensures Slice(requests, user) == Times(n, t) && Allowed(requests, user) == Times(n, t)
  {
    if n == 0 {
      requests := [];
    } else {
      var before := TogetherAllowed(user, t, n - 1);
      RepeatedTime(n - 1, t, t - WINDOW, t - 1);
      AllRecentPasses(before, Request(user, t), Times(n - 1, t));
      requests := before + [Request(user, t)];
      assert Times(n, t) == Times(n - 1, t) + [t];
    }
  }

  /** Ten requests at once, then one whose reading is just over a minute later, then one whose reading is just
      under, served after it: all twelve pass, and eleven lie within one minute. */
  lemma ElevenInAMinute(user: UserId, t: int) returns (requests: seq<Request>)
    ensures Allowed(requests, user) == Times(10, t) + [t + 60_000_000_001] + [t + 59_999_999_999]
    ensures |InWindow(Allowed(requests, user), t - 1)| == 11
  {
    var ten := TogetherAllowed(user, t, LIMIT);
    RepeatedTime(LIMIT, t, t + 1, t - 1);
    SliceSnoc(ten, Request(user, t + WINDOW + 1), user);
    AllowedSnoc(ten, Request(user, t + WINDOW + 1), user);
    var more := ten + [Request(user, t + WINDOW + 1)];
    RecentSnoc([], t + WINDOW + 1, t - 1);
    SliceSnoc(more, Request(user, t + WINDOW - 1), user);
    AllowedSnoc(more, Request(user, t + WINDOW - 1), user);
    requests := more + [Request(user, t + WINDOW - 1)];
    InWindowSnoc(Times(LIMIT, t), t + WINDOW + 1, t - 1);
    InWindowSnoc(Times(LIMIT, t) + [t + WINDOW + 1], t + WINDOW - 1, t - 1);
  }

  // ---------- one user at a time ----------

  function Only(requests: seq<Request>, user: UserId): seq<Request> {
    if requests == [] then [] else
    var before, last := Only(requests[..|requests| - 1], user), requests[|requests| - 1];
    if last.user == user then before + [last] else before
  }

  lemma OneMoreIndependent(requests: seq<Request>, r: Request, user: UserId)
    requires Slice(requests, user) == Slice(Only(requests, user), user)
    requires Allowed(requests, user) == Allowed(Only(requests, user), user)
    ensures var all := requests + [r];
            && Slice(all, user) == Slice(Only(all, user), user)
            && Allowed(all, user) == Allowed(Only(all, user), user)
  {
    OnlySnoc(requests, r, user);
    SliceSnoc(requests, r, user);
    AllowedSnoc(requests, r, user);
    if r.user == user {
      SliceSnoc(Only(requests, user), r, user);
      AllowedSnoc(Only(requests, user), r, user);
    }
  }

  lemma OnlySnoc(requests: seq<Request>, r: Request, user: UserId)
    ensures Only(requests + [r], user) == if r.user == user then Only(requests, user) + [r] else Only(requests, user)
  {
    assert (requests + [r])[..|requests|] == requests;
  }

  /** What a user is allowed depends on that user's requests alone. */
  lemma {:induction false} UsersIndependent(requests: seq<Request>, user: UserId)
    ensures Slice(requests, user) == Slice(Only(requests, user), user)
    ensures Allowed(requests, user) == Allowed(Only(requests, user), user)
    decreases |requests|
  {
    if requests != [] {
      var before, last := requests[..|requests| - 1], requests[|requests| - 1];
      UsersIndependent(before, user);
      assert requests == before + [last];
      OneMoreIndependent(before, last, user);
    }
  }

  // ---------- the compacted buckets ----------

  /** ts[:0] and append: moves the times after `cutoff` to the front of the same array. */
  method Compact(ts: array<int>, len: nat, cutoff: int) returns (kept: nat)
    requires len <= ts.Length
    modifies ts
    ensures kept <= len
    ensures ts[..kept] == Recent(old(ts[..len]), cutoff)
  {
    kept := 0;
    var i := 0;
    while i < len
      invariant 0 <= kept <= i <= len
      invariant ts[i..len] == old(ts[i..len])
      invariant ts[..kept] == Recent(old(ts[..i]), cutoff)
    {
      var t := ts[i];
      assert t == old(ts[i]);
      RecentSnoc(old(ts[..i]), t, cutoff);
      assert old(ts[..i + 1]) == old(ts[..i]) + [t];
      if t > cutoff {
        ts[kept] := t;
        kept := kept + 1;
      }
      assert ts[i + 1..len] == old(ts[i..len])[1..];
      i := i + 1;
    }
  }

  // One user's slice: its backing array and its length.
  class Bucket {
    var ts: array<int>
    var len: nat

    ghost predicate Valid()
      reads this
    {
      len <= ts.Length
    }

    ghost function Contents(): seq<int>
      requires Valid()
      reads this, ts
    {
      ts[..len]
    }

    constructor ()
      ensures Valid() && fresh(ts) && Contents() == []
    {
      ts := new int[0];
      len := 0;
    }

    /** append: in place while there is room, into a larger array otherwise. */
    method Append(t: int)
      requires Valid()
      modifies this, ts
      ensures Valid() && Contents() == old(Contents()) + [t]
      ensures ts == old(ts) || fresh(ts)
    {
      if len == ts.Length {
        var larger := new int[2 * len + 1];
        forall i | 0 <= i < len {
          larger[i] := ts[i];
        }
        ts := larger;
      }
      ts[len] := t;
      len := len + 1;
    }

    /** Compacts, then admits the request if the slice is still short enough. */
    method Admit(now: int) returns (allowed: bool)
      requires Valid()
      modifies this, ts
      ensures Valid() && (ts == old(ts) || fresh(ts))
      ensures allowed == MayPass(old(Contents()), now)
      ensures Contents() == Recent(old(Contents()), now - WINDOW) + if allowed then [now] else []
    {
      len := Compact(ts, len, now - WINDOW);
      allowed := len < LIMIT;
      if allowed {
        Append(now);
      }
    }
  }

  class TicketRateLimiter {
    var buckets: map<UserId, Bucket>

    ghost var served: seq<Request>

    /** The buckets and their backing arrays. */
    ghost function Repr(): set<object>
      reads this, buckets.Values
    {
      (set u | u in buckets :: buckets[u] as object) + (set u | u in buckets :: buckets[u].ts as object)
    }

    ghost predicate Separate()
      reads this, buckets.Values
    {
      forall u, v :: u in buckets && v in buckets && u != v ==>
        buckets[u] != buckets[v] && buckets[u].ts != buckets[v].ts
    }

    /** The user's bucket holds the slice of the requests served so far. */
    ghost predicate Keeps(u: UserId)
      reads this, buckets.Values, Repr()
    {
      Holds(u, Slice(served, u))
    }

    ghost predicate Valid()
      reads this, buckets.Values, Repr()
    {
      Separate() && forall u :: Keeps(u)
    }

    constructor ()
      ensures Valid() && served == [] && buckets == map[]
    {
      buckets, served := map[], [];
    }

    /** A user's first request finds the nil slice. */
    method GetBucket(user: UserId) returns (b: Bucket)
      requires Valid()
      modifies `buckets
      ensures Valid() && served == old(served)
      ensures user in buckets && buckets[user] == b
      ensures fresh(Repr() - old(Repr()))
    {
      if user in buckets {
        return buckets[user];
      }
      b := new Bucket();
      buckets := buckets[user := b];
      forall u
        ensures Keeps(u)
      {
        assert old(Keeps(u));
        assert u in old(buckets) ==> buckets[u] == old(buckets[u]);
      }
    }

    /** Whatever the clock reads, the answer and the record are those of the user's slice; and as long as the
        user's readings have not gone back, the answer is the full-history rule's. */
    method Allow(user: UserId, now: int) returns (allowed: bool)
      requires Valid()
      modifies this, Repr()
      ensures Valid() && served == old(served) + [Request(user, now)]
      ensures allowed == Passes(old(served), user, now)
      ensures Allowed(served, user) == Allowed(old(served), user) + if allowed then [now] else []
      ensures InOrder(served, user) ==> allowed == MayPass(History(old(served), user), now)
    {
      AllowedSnoc(served, Request(user, now), user);
      LastAnswer(served, user, now);
      allowed := TakeAllow(user, now);
    }

    /** The call itself. */
    method TakeAllow(user: UserId, now: int) returns (allowed: bool)
      requires Valid()
      modifies this, Repr()
      ensures Valid() && served == old(served) + [Request(user, now)]
      ensures allowed == Passes(old(served), user, now)
    {
      ghost var was := served;
      var bucket := GetBucket(user);
      allowed := AdmitTo(bucket, user, now);
      served := served + [Request(user, now)];
      RecordKeeps(was, Request(user, now));
    }

    lemma RecordKeeps(requests: seq<Request>, r: Request)
      requires Separate() && served == requests + [r]
      requires forall u :: u != r.user ==> Holds(u, Slice(requests, u))
      requires Holds(r.user, Recent(Slice(requests, r.user), r.at - WINDOW)
                             + if Passes(requests, r.user, r.at) then [r.at] else [])
      ensures Valid()
    {
      SlicesAfter(requests, r);
      assert Keeps(r.user);
      assert forall u :: u != r.user ==> Keeps(u);
    }

    static lemma SlicesAfter(requests: seq<Request>, r: Request)
      ensures Slice(requests + [r], r.user) ==
        Recent(Slice(requests, r.user), r.at - WINDOW) + if Passes(requests, r.user, r.at) then [r.at] else []
      ensures forall u :: u != r.user ==> Slice(requests + [r], u) == Slice(requests, u)
    {
      SliceSnoc(requests, r, r.user);
      OthersKept(requests, r);
    }

    /** The user's bucket holds this slice. */
    ghost predicate Holds(u: UserId, slice: seq<int>)
      reads this, buckets.Values, Repr()
    {
      if u !in buckets then slice == [] else buckets[u].Valid() && buckets[u].Contents() == slice
    }

    /** Admits to one user's bucket; the others hold what they held. */
    method AdmitTo(bucket: Bucket, user: UserId, now: int) returns (allowed: bool)
      requires Valid() && user in buckets && buckets[user] == bucket
      modifies bucket, bucket.ts
      ensures Separate()
      ensures forall u :: u != user ==> Holds(u, Slice(served, u))
      ensures allowed == Passes(served, user, now)
      ensures Holds(user, Recent(Slice(served, user), now - WINDOW) + if allowed then [now] else [])
    {
      assert Keeps(user);
      allowed := bucket.Admit(now);
      forall u | u != user
        ensures Holds(u, Slice(served, u))
      {
        assert old(Keeps(u));
      }
    }

    static lemma LastAnswer(requests: seq<Request>, user: UserId, now: int)
      ensures InOrder(requests + [Request(user, now)], user) ==>
        Passes(requests, user, now) == MayPass(History(requests, user), now)
    {
      var all := requests + [Request(user, now)];
      assert all[..|requests|] == requests;
      if InOrder(all, user) {
        InOrderFollowsRule(all, user);
        assert Allowed(requests, user) == History(requests, user);
        LimiterFollowsRuleIff(all, user);
        AnswersAgreeIff(requests, user, now);
      }
    }
  }
}
