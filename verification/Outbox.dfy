/**
  Lifecycle posts of Robot trades ("opened", "closed"): a retrying outbox with a
  bounded memory of what was posted. Each poll reads the trades, lists the posts not
  remembered, and attempts them in time order; any send may fail.
 */
module Outbox {
  import opened Wrappers
  import R = Ranking

  datatype Kind = Opened | Closed

  /** A stored trade; identifiers are compared and ordered, nothing else. */
  datatype Trade = Trade(id: int, entry: int, exit: Option<int>)

  datatype Post = Post(kind: Kind, id: int, time: int)

  const REMEMBERED := 200

  /** Ids posted per kind, oldest first. */
  datatype Memory = Memory(openSent: seq<int>, closeSent: seq<int>)
  {
    function Known(kind: Kind): seq<int> {
      if kind.Opened? then openSent else closeSent
    }
  }

  /** Appends an id not yet remembered, then keeps the newest 200. */
  function Remember(sent: seq<int>, id: int): seq<int> {
    var all := if id in sent then sent else sent + [id];
    if |all| > REMEMBERED then all[|all| - REMEMBERED..] else all
  }

  function Mark(m: Memory, post: Post): Memory {
    if post.kind.Opened? then m.(openSent := Remember(m.openSent, post.id))
    else m.(closeSent := Remember(m.closeSent, post.id))
  }

  // ----- posts due -----

  function DueOf(t: Trade, since: int, m: Memory): seq<Post> {
    (if since <= t.entry && t.id !in m.openSent then [Post(Opened, t.id, t.entry)] else [])
    + (if t.exit.Some? && since <= t.exit.value && t.id !in m.closeSent then [Post(Closed, t.id, t.exit.value)] else [])
  }

  function Due(trades: seq<Trade>, since: int, m: Memory): seq<Post> {
    if trades == [] then []
    else Due(trades[..|trades| - 1], since, m) + DueOf(trades[|trades| - 1], since, m)
  }

  /** Time, then "opened" before "closed", then id. */
  predicate Before(p: Post, q: Post) {
    || p.time < q.time
    || (p.time == q.time && p.kind.Opened? && q.kind.Closed?)
    || (p.time == q.time && p.kind == q.kind && p.id <= q.id)
  }

  predicate InOrder(posts: seq<Post>) {
    forall i, j :: 0 <= i < j < |posts| ==> Before(posts[i], posts[j])
  }

  function DeliveryOrder(): R.Order<Post> {
    (p: Post, q: Post) => Before(p, q)
  }

  function Sorted(posts: seq<Post>): seq<Post> {
    R.Sorted(DeliveryOrder(), posts)
  }

  lemma SortedIsOrdered(posts: seq<Post>)
    ensures InOrder(Sorted(posts)) && multiset(Sorted(posts)) == multiset(posts)
  {
    R.SortedIsRanked(DeliveryOrder(), posts);
  }

  // ----- delivery -----

  /** Posts whose sending fails during one poll. */
  type Failures = set<(Kind, int)>

  /** Attempts the posts in order; a failed post blocks the rest of its trade for this poll. */
  function Deliver(posts: seq<Post>, failing: Failures, blocked: set<int>, m: Memory): (Memory, seq<Post>)
    decreases |posts|
  {
    if posts == [] then (m, [])
    else
      var p := posts[0];
      if p.id in blocked then Deliver(posts[1..], failing, blocked, m)
      else if (p.kind, p.id) in failing then Deliver(posts[1..], failing, blocked + {p.id}, m)
      else
        var (final, delivered) := Deliver(posts[1..], failing, blocked, Mark(m, p));
        (final, [p] + delivered)
  }

  function PollOnce(trades: seq<Trade>, since: int, failing: Failures, m: Memory): (Memory, seq<Post>) {
    Deliver(Sorted(Due(trades, since, m)), failing, {}, m)
  }

  /** One post of the list, and then the rest. */
  lemma DeliverNext(posts: seq<Post>, i: nat, failing: Failures, blocked: set<int>, m: Memory, sent: seq<Post>)
    requires i < |posts|
    ensures var p, (state, rest) := posts[i], Deliver(posts[i..], failing, blocked, m);
            (state, sent + rest) ==
              if p.id in blocked then
                (Deliver(posts[i + 1..], failing, blocked, m).0, sent + Deliver(posts[i + 1..], failing, blocked, m).1)
              else if (p.kind, p.id) in failing then
                (Deliver(posts[i + 1..], failing, blocked + {p.id}, m).0, sent + Deliver(posts[i + 1..], failing, blocked + {p.id}, m).1)
              else
                (Deliver(posts[i + 1..], failing, blocked, Mark(m, p)).0,
                 (sent + [p]) + Deliver(posts[i + 1..], failing, blocked, Mark(m, p)).1)
  {
    var p := posts[i];
    assert posts[i..][1..] == posts[i + 1..];
    var rest := Deliver(posts[i + 1..], failing, blocked, Mark(m, p)).1;
    assert sent + ([p] + rest) == (sent + [p]) + rest;
  }

  class Poster {
    const since: int
    var openSent: seq<int>
    var closeSent: seq<int>
    /** Posts delivered so far. */
    ghost var log: seq<Post>

    ghost function State(): Memory
      reads this
    {
      Memory(openSent, closeSent)
    }

    constructor (now: int)
      ensures since == now && State() == Memory([], []) && log == []
    {
      since := now;
      openSent, closeSent := [], [];
      log := [];
    }

    method MarkNotified(post: Post)
      modifies this`openSent, this`closeSent
      ensures State() == Mark(old(State()), post)
    {
      if post.kind.Opened? {
        if post.id !in openSent {
          openSent := openSent + [post.id];
        }
        if |openSent| > REMEMBERED {
          openSent := openSent[|openSent| - REMEMBERED..];
        }
      } else {
        if post.id !in closeSent {
          closeSent := closeSent + [post.id];
        }
        if |closeSent| > REMEMBERED {
          closeSent := closeSent[|closeSent| - REMEMBERED..];
        }
      }
    }

    method CollectNew(trades: seq<Trade>) returns (posts: seq<Post>)
      ensures posts == Sorted(Due(trades, since, State()))
      ensures InOrder(posts) && multiset(posts) == multiset(Due(trades, since, State()))
    {
      var due: seq<Post> := [];
      for k := 0 to |trades|
        invariant due == Due(trades[..k], since, State())
      {
        var trade := trades[k];
        assert trades[..k + 1][..k] == trades[..k];
        var before := due;
        if since <= trade.entry && trade.id !in openSent {
          due := due + [Post(Opened, trade.id, trade.entry)];
        }
        if trade.exit.Some? && since <= trade.exit.value && trade.id !in closeSent {
          due := due + [Post(Closed, trade.id, trade.exit.value)];
        }
        assert due == before + DueOf(trade, since, State());
      }
      assert trades[..|trades|] == trades;
      SortedIsOrdered(due);
      posts := Sorted(due);
    }

    method Poll(trades: seq<Trade>, failing: Failures)
      modifies this
      ensures var (state, delivered) := PollOnce(trades, since, failing, old(State()));
              State() == state && log == old(log) + delivered
    {
      var posts := CollectNew(trades);
      var blocked: set<int> := {};
      ghost var start := State();
      ghost var delivered: seq<Post> := [];
      var i := 0;
      assert posts[0..] == posts;
      assert [] + Deliver(posts, failing, {}, start).1 == Deliver(posts, failing, {}, start).1;
      while i < |posts|
        invariant 0 <= i <= |posts|
        invariant log == old(log) + delivered
        invariant var (state, rest) := Deliver(posts[i..], failing, blocked, State());
                  (state, delivered + rest) == Deliver(posts, failing, {}, start)
      {
        var p := posts[i];
        DeliverNext(posts, i, failing, blocked, State(), delivered);
        if p.id in blocked {
        } else if (p.kind, p.id) in failing {
          blocked := blocked + {p.id};
        } else {
          MarkNotified(p);
          log := log + [p];
          delivered := delivered + [p];
        }
        i := i + 1;
      }
      assert posts[i..] == [] && delivered + [] == delivered;
    }
  }

  // ----- runs -----

  datatype Round = Round(trades: seq<Trade>, failing: Failures)

  /** Memory and delivery log after a sequence of polls over a changing store with any failures. */
  function Run(since: int, rounds: seq<Round>): (Memory, seq<Post>) {
    if rounds == [] then (Memory([], []), [])
    else
      var last := rounds[|rounds| - 1];
      var (m, log) := Run(since, rounds[..|rounds| - 1]);
      var (final, delivered) := PollOnce(last.trades, since, last.failing, m);
      (final, log + delivered)
  }

  /** A store lists each trade once. */
  predicate DistinctTrades(trades: seq<Trade>) {
    forall i, j :: 0 <= i < j < |trades| ==> trades[i].id != trades[j].id
  }

  predicate Mentions(posts: seq<Post>, kind: Kind, id: int) {
    exists i :: 0 <= i < |posts| && posts[i].kind == kind && posts[i].id == id
  }

  // ----- "closed" never precedes "opened" -----

  lemma {:induction false} DueMembers(trades: seq<Trade>, since: int, m: Memory, p: Post)
    ensures p in Due(trades, since, m) <==> exists k :: 0 <= k < |trades| && p in DueOf(trades[k], since, m)
  {
    if trades != [] {
      var init, last := trades[..|trades| - 1], trades[|trades| - 1];
      DueMembers(init, since, m, p);
      if p in Due(trades, since, m) {
        if p in DueOf(last, since, m) {
          assert p in DueOf(trades[|trades| - 1], since, m);
        } else {
          var k :| 0 <= k < |init| && p in DueOf(init[k], since, m);
          assert p in DueOf(trades[k], since, m);
        }
      }
      if k :| 0 <= k < |trades| && p in DueOf(trades[k], since, m) {
        assert k < |init| ==> p in DueOf(init[k], since, m);
      }
    }
  }

  lemma SortedMembers(posts: seq<Post>, p: Post)
    ensures p in Sorted(posts) <==> p in posts
  {
    SortedIsOrdered(posts);
    assert p in Sorted(posts) <==> p in multiset(Sorted(posts));
    assert p in posts <==> p in multiset(posts);
  }

  /** Every "closed" post of this trade in the list comes after an "opened" one, unless that was delivered before. */
  ghost predicate ClosedFollows(posts: seq<Post>, id: int, already: bool) {
    forall j :: 0 <= j < |posts| && posts[j].kind.Closed? && posts[j].id == id ==>
      already || exists i :: 0 <= i < j && posts[i].kind.Opened? && posts[i].id == id
  }

  lemma {:induction false} DeliveryKeepsOrder(posts: seq<Post>, failing: Failures, blocked: set<int>, m: Memory, id: int, already: bool)
    requires ClosedFollows(posts, id, already || id in blocked)
    ensures ClosedFollows(Deliver(posts, failing, blocked, m).1, id, already)
    decreases |posts|
  {
    if posts != [] {
      var p, rest := posts[0], posts[1..];
      var failed := p.id !in blocked && (p.kind, p.id) in failing;
      var now := already || (p.id !in blocked && !failed && p.kind.Opened? && p.id == id);
      var stopped := if failed then blocked + {p.id} else blocked;
      forall j | 0 <= j < |rest| && rest[j].kind.Closed? && rest[j].id == id
        ensures now || id in stopped || exists i :: 0 <= i < j && rest[i].kind.Opened? && rest[i].id == id
      {
        assert posts[j + 1] == rest[j];
        if !(already || id in blocked) {
          var i :| 0 <= i < j + 1 && posts[i].kind.Opened? && posts[i].id == id;
          if i > 0 { assert rest[i - 1] == posts[i]; }
        }
      }
      if p.id in blocked {
        DeliveryKeepsOrder(rest, failing, blocked, m, id, already);
      } else if failed {
        DeliveryKeepsOrder(rest, failing, stopped, m, id, already);
      } else {
        DeliveryKeepsOrder(rest, failing, blocked, Mark(m, p), id, now);
        PrependKeepsOrder(p, Deliver(rest, failing, blocked, Mark(m, p)).1, id, already, now);
      }
    }
  }

  lemma PrependKeepsOrder(p: Post, rest: seq<Post>, id: int, already: bool, now: bool)
    requires ClosedFollows(rest, id, now)
    requires now ==> already || (p.kind.Opened? && p.id == id)
    requires p.kind.Closed? && p.id == id ==> already
    ensures ClosedFollows([p] + rest, id, already)
  {
    var all := [p] + rest;
    forall j | 0 <= j < |all| && all[j].kind.Closed? && all[j].id == id
      ensures already || exists i :: 0 <= i < j && all[i].kind.Opened? && all[i].id == id
    {
      if j > 0 {
        assert all[j] == rest[j - 1];
        if now {
          if !already { assert all[0].kind.Opened? && all[0].id == id; }
        } else {
          var i :| 0 <= i < j - 1 && rest[i].kind.Opened? && rest[i].id == id;
          assert all[i + 1] == rest[i];
        }
      }
    }
  }

  predicate Proper(t: Trade, since: int) {
    since <= t.entry && (t.exit.Some? ==> t.entry <= t.exit.value)
  }

  lemma ClosedHasOpened(trades: seq<Trade>, since: int, m: Memory, p: Post) returns (q: Post)
    requires forall k :: 0 <= k < |trades| && trades[k].id == p.id ==> Proper(trades[k], since)
    requires p in Due(trades, since, m) && p.kind.Closed? && p.id !in m.openSent
    ensures q in Due(trades, since, m) && q.kind.Opened? && q.id == p.id && q.time <= p.time
  {
    DueMembers(trades, since, m, p);
    var k :| 0 <= k < |trades| && p in DueOf(trades[k], since, m);
    assert Proper(trades[k], since);
    q := Post(Opened, p.id, trades[k].entry);
    assert q in DueOf(trades[k], since, m);
    DueMembers(trades, since, m, q);
  }

  lemma EarlierInOrder(posts: seq<Post>, q: Post, j: int) returns (i: int)
    requires InOrder(posts) && q in posts && 0 <= j < |posts|
    requires q.kind.Opened? && posts[j].kind.Closed? && q.time <= posts[j].time
    ensures 0 <= i < j && posts[i] == q
  {
    i :| 0 <= i < |posts| && posts[i] == q;
  }

  /** A trade that was opened after the start and not after its exit has its "opened" post due first. */
  lemma DueIsOrdered(trades: seq<Trade>, since: int, m: Memory, id: int)
    requires forall k :: 0 <= k < |trades| && trades[k].id == id ==> Proper(trades[k], since)
    ensures ClosedFollows(Sorted(Due(trades, since, m)), id, id in m.openSent)
  {
    var due := Due(trades, since, m);
    var posts := Sorted(due);
    SortedIsOrdered(due);
    forall j | 0 <= j < |posts| && posts[j].kind.Closed? && posts[j].id == id && id !in m.openSent
      ensures exists i :: 0 <= i < j && posts[i].kind.Opened? && posts[i].id == id
    {
      SortedMembers(due, posts[j]);
      var q := ClosedHasOpened(trades, since, m, posts[j]);
      SortedMembers(due, q);
      var i := EarlierInOrder(posts, q, j);
    }
  }

  /** Remembered "opened" ids were delivered. */
  ghost predicate RememberedWasPosted(m: Memory, log: seq<Post>) {
    forall id :: id in m.openSent ==> Mentions(log, Opened, id)
  }

  lemma {:induction false} DeliveryRemembersPosted(posts: seq<Post>, failing: Failures, blocked: set<int>, m: Memory, log: seq<Post>)
    requires RememberedWasPosted(m, log)
    ensures var (final, delivered) := Deliver(posts, failing, blocked, m);
            RememberedWasPosted(final, log + delivered)
    decreases |posts|
  {
    if posts == [] {
      assert log + [] == log;
    } else {
      var p := posts[0];
      if p.id in blocked {
        DeliveryRemembersPosted(posts[1..], failing, blocked, m, log);
      } else if (p.kind, p.id) in failing {
        DeliveryRemembersPosted(posts[1..], failing, blocked + {p.id}, m, log);
      } else {
        forall id | id in Mark(m, p).openSent ensures Mentions(log + [p], Opened, id) {
          if id in m.openSent {
            var i :| 0 <= i < |log| && log[i].kind == Opened && log[i].id == id;
            assert (log + [p])[i] == log[i];
          } else {
            assert (log + [p])[|log|] == p;
          }
        }
        DeliveryRemembersPosted(posts[1..], failing, blocked, Mark(m, p), log + [p]);
        assert (log + [p]) + Deliver(posts[1..], failing, blocked, Mark(m, p)).1
            == log + ([p] + Deliver(posts[1..], failing, blocked, Mark(m, p)).1);
      }
    }
  }

  lemma {:induction false} RunRemembersPosted(since: int, rounds: seq<Round>)
    ensures RememberedWasPosted(Run(since, rounds).0, Run(since, rounds).1)
  {
    if rounds != [] {
      var init, last := rounds[..|rounds| - 1], rounds[|rounds| - 1];
      RunRemembersPosted(since, init);
      var (m, log) := Run(since, init);
      DeliveryRemembersPosted(Sorted(Due(last.trades, since, m)), last.failing, {}, m, log);
    }
  }

  /** Every stored version of the trade entered after the start and not after its exit. */
  ghost predicate ProperTrade(since: int, rounds: seq<Round>, id: int) {
    forall n, k :: 0 <= n < |rounds| && 0 <= k < |rounds[n].trades| && rounds[n].trades[k].id == id ==>
      Proper(rounds[n].trades[k], since)
  }

  lemma ClosedFollowsAcross(log: seq<Post>, delivered: seq<Post>, id: int)
    requires ClosedFollows(log, id, false)
    requires ClosedFollows(delivered, id, Mentions(log, Opened, id))
    ensures ClosedFollows(log + delivered, id, false)
  {
    var all := log + delivered;
    forall j | 0 <= j < |all| && all[j].kind.Closed? && all[j].id == id
      ensures exists i :: 0 <= i < j && all[i].kind.Opened? && all[i].id == id
    {
      if j < |log| {
        var i :| 0 <= i < j && log[i].kind.Opened? && log[i].id == id;
        assert all[i] == log[i];
      } else {
        assert all[j] == delivered[j - |log|];
        if Mentions(log, Opened, id) {
          var i :| 0 <= i < |log| && log[i].kind == Opened && log[i].id == id;
          assert all[i] == log[i];
        } else {
          var i :| 0 <= i < j - |log| && delivered[i].kind.Opened? && delivered[i].id == id;
          assert all[|log| + i] == delivered[i];
        }
      }
    }
  }

  /** Over every run, with any failures, a trade's "closed" post is delivered only after its "opened" post. */
  lemma {:induction false} ClosedOnlyAfterOpened(since: int, rounds: seq<Round>, id: int)
    requires ProperTrade(since, rounds, id)
    ensures ClosedFollows(Run(since, rounds).1, id, false)
    decreases |rounds|
  {
    if rounds != [] {
      var init, last := rounds[..|rounds| - 1], rounds[|rounds| - 1];
      assert forall n :: 0 <= n < |init| ==> init[n] == rounds[n];
      ClosedOnlyAfterOpened(since, init, id);
      RunRemembersPosted(since, init);
      var (m, log) := Run(since, init);
      var posts := Sorted(Due(last.trades, since, m));
      DueIsOrdered(last.trades, since, m, id);
      DeliveryKeepsOrder(posts, last.failing, {}, m, id, id in m.openSent);
      ClosedFollowsAcross(log, Deliver(posts, last.failing, {}, m).1, id);
    }
  }

  lemma SortedPair(p: Post, q: Post)
    ensures Sorted([p]) == [p]
    ensures Sorted([p, q]) == if Before(p, q) then [p, q] else [q, p]
  {
    assert [p][..0] == [] && [p, q][..1] == [p];
    var order := DeliveryOrder();
    assert R.Insert(order, [], p) == [p] && R.Insert(order, [], q) == [q];
    assert Sorted([p]) == R.Insert(order, Sorted([]), p);
    assert R.Insert(order, [p], q) == if Before(p, q) then [p, q] else [q, p];
  }

  lemma DeliverTwo(m: Memory, p: Post, q: Post)
    ensures Deliver([p], {}, {}, m).1 == [p]
    ensures Deliver([p, q], {}, {}, m).1 == [p, q]
  {
    assert [p, q][1..] == [q] && [p][1..] == [] && [q][1..] == [];
    assert Deliver([q], {}, {}, Mark(m, p)).1 == [q];
  }

  /** One undisturbed poll of a single trade delivers what is due of it, in order. */
  lemma OneTradePoll(since: int, t: Trade)
    ensures Run(since, [Round([t], {})]).1 == Deliver(Sorted(DueOf(t, since, Memory([], []))), {}, {}, Memory([], [])).1
  {
    var empty, rounds := Memory([], []), [Round([t], {})];
    assert rounds[..0] == [] && Run(since, []) == (empty, []);
    assert [t][..0] == [];
    assert Due([t], since, empty) == Due([], since, empty) + DueOf(t, since, empty) == DueOf(t, since, empty);
    var delivered := PollOnce([t], since, {}, empty).1;
    assert [] + delivered == delivered;
  }

  /** The condition is exact: for a trade that closed after the start, one undisturbed poll already breaks the
      order unless it entered at or after the start and not after its exit. */
  lemma OrderNeedsProperTrade(since: int, t: Trade)
    requires t.exit.Some? && since <= t.exit.value
    ensures ClosedFollows(Run(since, [Round([t], {})]).1, t.id, false) <==> Proper(t, since)
  {
    OneTradePoll(since, t);
    var entered, left := Post(Opened, t.id, t.entry), Post(Closed, t.id, t.exit.value);
    SortedPair(entered, left);
    SortedPair(left, entered);
    DeliverTwo(Memory([], []), entered, left);
    DeliverTwo(Memory([], []), left, entered);
    var log := Run(since, [Round([t], {})]).1;
    assert log == if t.entry < since then [left] else if t.entry <= t.exit.value then [entered, left] else [left, entered];
    assert log[0].kind.Closed? ==> !ClosedFollows(log, t.id, false);
  }

  // ----- each post at most once, while at most 200 trades are due -----

  /** Ids of one kind, in order. */
  function Ids(posts: seq<Post>, kind: Kind): seq<int> {
    if posts == [] then []
    else if posts[0].kind == kind then [posts[0].id] + Ids(posts[1..], kind)
    else Ids(posts[1..], kind)
  }

  predicate NoRepeats(ids: seq<int>) {
    forall i, j :: 0 <= i < j < |ids| ==> ids[i] != ids[j]
  }

  lemma {:induction false} IdsConcat(a: seq<Post>, b: seq<Post>, kind: Kind)
    ensures Ids(a + b, kind) == Ids(a, kind) + Ids(b, kind)
    decreases |a|
  {
    if a == [] {
      assert a + b == b;
    } else {
      IdsConcat(a[1..], b, kind);
      assert (a + b)[1..] == a[1..] + b;
    }
  }

  lemma {:induction false} IdsMembers(posts: seq<Post>, kind: Kind, id: int)
    ensures id in Ids(posts, kind) <==> Mentions(posts, kind, id)
    decreases |posts|
  {
    if posts != [] {
      IdsMembers(posts[1..], kind, id);
      if Mentions(posts[1..], kind, id) {
        var i :| 0 <= i < |posts[1..]| && posts[1..][i].kind == kind && posts[1..][i].id == id;
        assert posts[i + 1] == posts[1..][i];
      }
      if i :| 0 <= i < |posts| && posts[i].kind == kind && posts[i].id == id {
        if i > 0 { assert posts[1..][i - 1] == posts[i]; }
      }
    }
  }

  /** Distinct ids from a set are no more than the set has. */
  lemma {:induction false} DistinctFit(ids: seq<int>, pool: set<int>)
    requires NoRepeats(ids) && forall i :: 0 <= i < |ids| ==> ids[i] in pool
    ensures |ids| <= |pool|
    decreases |ids|
  {
    if ids != [] {
      var init, last := ids[..|ids| - 1], ids[|ids| - 1];
      DistinctFit(init, pool - {last});
    }
  }

  /** The posts to attempt: new for this kind, each id once, all from the pool. */
  ghost predicate NewFrom(posts: seq<Post>, kind: Kind, known: seq<int>, pool: set<int>) {
    && NoRepeats(known + Ids(posts, kind))
    && forall id :: id in Ids(posts, kind) ==> id in pool
  }

  lemma DropHead(known: seq<int>, x: int, rest: seq<int>)
    requires NoRepeats(known + ([x] + rest))
    ensures NoRepeats(known + rest)
  {
    var all, less := known + ([x] + rest), known + rest;
    forall i, j | 0 <= i < j < |less| ensures less[i] != less[j] {
      var i', j' := if i < |known| then i else i + 1, if j < |known| then j else j + 1;
      assert less[i] == all[i'] && less[j] == all[j'];
    }
  }

  lemma TakeHead(known: seq<int>, x: int, rest: seq<int>)
    requires NoRepeats(known + ([x] + rest))
    ensures x !in known && NoRepeats(known + [x]) && NoRepeats((known + [x]) + rest)
  {
    var all := known + ([x] + rest);
    assert all == (known + [x]) + rest;
    forall i | 0 <= i < |known| ensures known[i] != x {
      assert all[i] == known[i] && all[|known|] == x;
    }
    forall i, j | 0 <= i < j < |known + [x]| ensures (known + [x])[i] != (known + [x])[j] {
      assert (known + [x])[i] == all[i] && (known + [x])[j] == all[j];
    }
  }

  /** While the ids fit, delivering extends the memory by exactly the delivered ids. */
  lemma {:induction false} DeliveryExtendsMemory(posts: seq<Post>, failing: Failures, blocked: set<int>, m: Memory,
                                                 kind: Kind, pool: set<int>)
    requires NewFrom(posts, kind, m.Known(kind), pool) && |pool| <= REMEMBERED
    requires forall id :: id in m.Known(kind) ==> id in pool
    ensures var (final, delivered) := Deliver(posts, failing, blocked, m);
            && final.Known(kind) == m.Known(kind) + Ids(delivered, kind)
            && NoRepeats(final.Known(kind))
            && forall id :: id in final.Known(kind) ==> id in pool
    decreases |posts|
  {
    var known := m.Known(kind);
    if posts == [] {
      assert known + [] == known;
    } else {
      var p, rest := posts[0], posts[1..];
      var later := Ids(rest, kind);
      assert p.kind == kind ==> p.id in Ids(posts, kind);
      if p.kind == kind { DropHead(known, p.id, later); }
      if p.id in blocked {
        DeliveryExtendsMemory(rest, failing, blocked, m, kind, pool);
      } else if (p.kind, p.id) in failing {
        DeliveryExtendsMemory(rest, failing, blocked + {p.id}, m, kind, pool);
      } else {
        var next := Mark(m, p);
        if p.kind == kind {
          TakeHead(known, p.id, later);
          forall i | 0 <= i < |known + [p.id]| ensures (known + [p.id])[i] in pool {
            if i < |known| {
              var id := known[i];
              assert id in m.Known(kind);
            } else {
              assert p.id in Ids(posts, kind);
            }
          }
          DistinctFit(known + [p.id], pool);
          assert next.Known(kind) == known + [p.id];
        }
        DeliveryExtendsMemory(rest, failing, blocked, next, kind, pool);
        var delivered := Deliver(rest, failing, blocked, next).1;
        assert ([p] + delivered)[1..] == delivered;
        assert p.kind == kind ==> (known + [p.id]) + Ids(delivered, kind) == known + ([p.id] + Ids(delivered, kind));
      }
    }
  }

  /** No two posts of the list share kind and trade, and none is listed twice. */
  ghost predicate KeyDistinct(posts: seq<Post>) {
    && (forall p, q :: p in posts && q in posts && p.kind == q.kind && p.id == q.id ==> p == q)
    && forall p {:trigger multiset(posts)[p]} :: multiset(posts)[p] <= 1
  }

  lemma KeyDistinctPermutes(a: seq<Post>, b: seq<Post>)
    requires KeyDistinct(a) && multiset(a) == multiset(b)
    ensures KeyDistinct(b)
  {
    forall p ensures p in a <==> p in b {
      assert p in multiset(a) <==> p in multiset(b);
    }
  }

  lemma KeyDistinctTail(posts: seq<Post>)
    requires KeyDistinct(posts) && posts != []
    ensures KeyDistinct(posts[1..])
    ensures forall q :: q in posts[1..] ==> q.kind != posts[0].kind || q.id != posts[0].id
  {
    var p, rest := posts[0], posts[1..];
    assert posts == [p] + rest;
    forall q ensures multiset(rest)[q] <= 1 {
      assert multiset(posts)[q] == multiset([p])[q] + multiset(rest)[q];
    }
    forall q | q in rest ensures q.kind != p.kind || q.id != p.id {
      assert q in multiset(rest);
      assert multiset(posts)[q] == multiset([p])[q] + multiset(rest)[q];
    }
  }

  lemma {:induction false} KeyDistinctIds(posts: seq<Post>, kind: Kind)
    requires KeyDistinct(posts)
    ensures NoRepeats(Ids(posts, kind))
    decreases |posts|
  {
    if posts != [] {
      KeyDistinctTail(posts);
      KeyDistinctIds(posts[1..], kind);
      if posts[0].kind == kind {
        IdsMembers(posts[1..], kind, posts[0].id);
        assert !Mentions(posts[1..], kind, posts[0].id);
        var tail := Ids(posts[1..], kind);
        assert forall i :: 0 <= i < |tail| ==> tail[i] in tail;
      }
    }
  }

  lemma KeyDistinctJoin(a: seq<Post>, b: seq<Post>)
    requires KeyDistinct(a) && KeyDistinct(b)
    requires forall p, q :: p in a && q in b ==> p.id != q.id
    ensures KeyDistinct(a + b)
  {
    forall p ensures multiset(a + b)[p] <= 1 {
      assert multiset(a + b)[p] == multiset(a)[p] + multiset(b)[p];
      assert p in a <==> p in multiset(a);
      assert p in b <==> p in multiset(b);
    }
  }

  /** Posts of the list belong to listed trades. */
  lemma DueBelongs(trades: seq<Trade>, since: int, m: Memory, p: Post)
    requires p in Due(trades, since, m)
    ensures exists k :: 0 <= k < |trades| && trades[k].id == p.id
  {
    DueMembers(trades, since, m, p);
    var k :| 0 <= k < |trades| && p in DueOf(trades[k], since, m);
    assert trades[k].id == p.id;
  }

  lemma {:induction false} DueIsKeyDistinct(trades: seq<Trade>, since: int, m: Memory)
    requires DistinctTrades(trades)
    ensures KeyDistinct(Due(trades, since, m))
  {
    if trades != [] {
      var init, last := trades[..|trades| - 1], trades[|trades| - 1];
      DueIsKeyDistinct(init, since, m);
      var a, b := Due(init, since, m), DueOf(last, since, m);
      forall p, q | p in a && q in b ensures p.id != q.id {
        DueBelongs(init, since, m, p);
        assert q.id == last.id;
      }
      KeyDistinctJoin(a, b);
    }
  }

  /** Ids of one kind that are due at some poll of a run: the trades "of that kind". */
  predicate DueOnce(since: int, rounds: seq<Round>, kind: Kind, pool: set<int>) {
    forall n, k :: 0 <= n < |rounds| && 0 <= k < |rounds[n].trades| ==>
      DueFor(rounds[n].trades[k], since, kind) ==> rounds[n].trades[k].id in pool
  }

  /** The trade has an event of this kind at or after the start. */
  predicate DueFor(t: Trade, since: int, kind: Kind) {
    if kind.Opened? then since <= t.entry else t.exit.Some? && since <= t.exit.value
  }

  predicate DistinctRounds(rounds: seq<Round>) {
    forall n :: 0 <= n < |rounds| ==> DistinctTrades(rounds[n].trades)
  }

  lemma DueIsNew(trades: seq<Trade>, since: int, m: Memory, kind: Kind, id: int)
    requires id in Ids(Sorted(Due(trades, since, m)), kind)
    ensures id !in m.Known(kind)
    ensures exists k :: 0 <= k < |trades| && trades[k].id == id && DueFor(trades[k], since, kind)
  {
    var posts := Sorted(Due(trades, since, m));
    IdsMembers(posts, kind, id);
    var i :| 0 <= i < |posts| && posts[i].kind == kind && posts[i].id == id;
    SortedMembers(Due(trades, since, m), posts[i]);
    DueMembers(trades, since, m, posts[i]);
    var k :| 0 <= k < |trades| && posts[i] in DueOf(trades[k], since, m);
    assert trades[k].id == id;
  }

  lemma JoinNoRepeats(a: seq<int>, b: seq<int>)
    requires NoRepeats(a) && NoRepeats(b) && forall x :: x in b ==> x !in a
    ensures NoRepeats(a + b)
  {
    forall i, j | 0 <= i < j < |a + b| ensures (a + b)[i] != (a + b)[j] {
      if i < |a| <= j { assert b[j - |a|] in b; }
    }
  }

  /** While at most 200 trades are ever due, the memory of a kind is exactly its delivery log. */
  lemma {:induction false} MemoryIsLog(since: int, rounds: seq<Round>, kind: Kind, pool: set<int>)
    requires DistinctRounds(rounds) && DueOnce(since, rounds, kind, pool) && |pool| <= 200
    ensures var (m, log) := Run(since, rounds);
            && m.Known(kind) == Ids(log, kind)
            && NoRepeats(Ids(log, kind))
            && forall id :: id in Ids(log, kind) ==> id in pool
    decreases |rounds|
  {
    if rounds != [] {
      var init, last := rounds[..|rounds| - 1], rounds[|rounds| - 1];
      assert forall n :: 0 <= n < |init| ==> init[n] == rounds[n];
      MemoryIsLog(since, init, kind, pool);
      var (m, log) := Run(since, init);
      var due := Due(last.trades, since, m);
      var posts := Sorted(due);
      assert rounds[|rounds| - 1] == last;
      DueIsKeyDistinct(last.trades, since, m);
      SortedIsOrdered(due);
      KeyDistinctPermutes(due, posts);
      KeyDistinctIds(posts, kind);
      forall id | id in Ids(posts, kind) ensures id !in m.Known(kind) && id in pool {
        DueIsNew(last.trades, since, m, kind, id);
      }
      JoinNoRepeats(m.Known(kind), Ids(posts, kind));
      DeliveryExtendsMemory(posts, last.failing, {}, m, kind, pool);
      IdsConcat(log, Deliver(posts, last.failing, {}, m).1, kind);
    }
  }

  /** Each post is delivered at most once as long as at most 200 trades of its kind are ever due. */
  lemma DeliveredAtMostOnce(since: int, rounds: seq<Round>, kind: Kind, pool: set<int>, i: int, j: int)
    requires DistinctRounds(rounds) && DueOnce(since, rounds, kind, pool) && |pool| <= 200
    requires 0 <= i < j < |Run(since, rounds).1|
    requires Run(since, rounds).1[i].kind == kind == Run(since, rounds).1[j].kind
    ensures Run(since, rounds).1[i].id != Run(since, rounds).1[j].id
  {
    var log := Run(since, rounds).1;
    MemoryIsLog(since, rounds, kind, pool);
    var front, back := Ids(log[..j], kind), Ids(log[j..], kind);
    assert log == log[..j] + log[j..];
    IdsConcat(log[..j], log[j..], kind);
    assert log[..j][i].kind == kind && log[..j][i].id == log[i].id;
    IdsMembers(log[..j], kind, log[i].id);
    var x :| 0 <= x < |front| && front[x] == log[i].id;
    assert back[0] == log[j].id;
    assert (front + back)[x] == front[x] && (front + back)[|front|] == back[0];
  }

  // ----- the bound is tight -----

  /** All open, all entered after the start. */
  predicate Fresh(since: int, trades: seq<Trade>) {
    DistinctTrades(trades) && forall k :: 0 <= k < |trades| ==> since <= trades[k].entry && trades[k].exit.None?
  }

  lemma {:induction false} AllAreDue(since: int, trades: seq<Trade>, m: Memory)
    requires Fresh(since, trades) && m.openSent == []
    ensures |Due(trades, since, m)| == |trades|
    ensures forall p :: p in Due(trades, since, m) ==> p.kind.Opened?
    ensures forall k :: 0 <= k < |trades| ==> Post(Opened, trades[k].id, trades[k].entry) in Due(trades, since, m)
  {
    if trades != [] {
      var init, last := trades[..|trades| - 1], trades[|trades| - 1];
      assert forall k :: 0 <= k < |init| ==> init[k] == trades[k];
      AllAreDue(since, init, m);
      assert DueOf(last, since, m) == [Post(Opened, last.id, last.entry)];
    }
  }

  /** With no failures everything is delivered, and the memory keeps the newest 200 ids. */
  lemma {:induction false} DeliverAll(posts: seq<Post>, m: Memory)
    requires forall p :: p in posts ==> p.kind.Opened?
    requires NoRepeats(m.openSent + Ids(posts, Opened)) && |m.openSent| <= REMEMBERED
    ensures var (final, delivered) := Deliver(posts, {}, {}, m);
            && delivered == posts
            && |final.openSent| == (if |m.openSent| + |posts| <= REMEMBERED then |m.openSent| + |posts| else REMEMBERED)
    decreases |posts|
  {
    if posts != [] {
      var p, rest := posts[0], posts[1..];
      assert p in posts && forall q :: q in rest ==> q in posts;
      NextMemory(m, p, Ids(rest, Opened));
      DeliverAll(rest, Mark(m, p));
      assert posts == [p] + rest;
    }
  }

  lemma NextMemory(m: Memory, p: Post, later: seq<int>)
    requires p.kind.Opened? && NoRepeats(m.openSent + ([p.id] + later)) && |m.openSent| <= REMEMBERED
    ensures var next := Mark(m, p).openSent;
            && NoRepeats(next + later)
            && |next| == if |m.openSent| < REMEMBERED then |m.openSent| + 1 else REMEMBERED
  {
    var known, next := m.openSent, Mark(m, p).openSent;
    TakeHead(known, p.id, later);
    var cut := |known + [p.id]| - |next|;
    assert next == (known + [p.id])[cut..];
    assert next + later == (known + [p.id] + later)[cut..];
  }

  lemma {:induction false} ElementsAreFew(ids: seq<int>)
    ensures |set x | x in ids| <= |ids|
  {
    if ids != [] {
      var init, last := ids[..|ids| - 1], ids[|ids| - 1];
      ElementsAreFew(init);
      assert (set x | x in ids) == (set x | x in init) + {last};
    }
  }

  lemma {:induction false} NothingDue(since: int, trades: seq<Trade>, m: Memory)
    requires forall k :: 0 <= k < |trades| ==> since <= trades[k].entry && trades[k].exit.None?
    ensures Due(trades, since, m) == [] <==> forall k :: 0 <= k < |trades| ==> trades[k].id in m.openSent
  {
    if trades != [] {
      var init, last := trades[..|trades| - 1], trades[|trades| - 1];
      NothingDue(since, init, m);
      assert forall k :: 0 <= k < |init| ==> init[k] == trades[k];
      assert last.id in m.openSent <==> DueOf(last, since, m) == [];
    }
  }

  /** The posts of fresh open trades: one "opened" post per trade. */
  lemma FreshPosts(since: int, trades: seq<Trade>)
    requires Fresh(since, trades)
    ensures var posts := Sorted(Due(trades, since, Memory([], [])));
            && |posts| == |trades|
            && (forall p :: p in posts ==> p.kind.Opened?)
            && NoRepeats(Ids(posts, Opened))
            && forall k :: 0 <= k < |trades| ==> trades[k].id in Ids(posts, Opened)
  {
    var empty := Memory([], []);
    var due := Due(trades, since, empty);
    var posts := Sorted(due);
    AllAreDue(since, trades, empty);
    SortedIsOrdered(due);
    assert |posts| == |multiset(posts)| == |due|;
    forall p | p in posts ensures p.kind.Opened? { SortedMembers(due, p); }
    DueIsKeyDistinct(trades, since, empty);
    KeyDistinctPermutes(due, posts);
    KeyDistinctIds(posts, Opened);
    forall k | 0 <= k < |trades| ensures trades[k].id in Ids(posts, Opened) {
      var p := Post(Opened, trades[k].id, trades[k].entry);
      SortedMembers(due, p);
      var i :| 0 <= i < |posts| && posts[i] == p;
      IdsMembers(posts, Opened, trades[k].id);
    }
  }

  function TradeIds(trades: seq<Trade>): seq<int> {
    seq(|trades|, k requires 0 <= k < |trades| => trades[k].id)
  }

  /** The memory after one fully successful poll of fresh open trades. */
  lemma FirstPollMemory(since: int, trades: seq<Trade>)
    requires Fresh(since, trades)
    ensures var m := PollOnce(trades, since, {}, Memory([], [])).0;
            && |m.openSent| == (if |trades| <= REMEMBERED then |trades| else REMEMBERED)
            && (|trades| <= REMEMBERED ==> forall k :: 0 <= k < |trades| ==> trades[k].id in m.openSent)
  {
    var empty := Memory([], []);
    var posts := Sorted(Due(trades, since, empty));
    FreshPosts(since, trades);
    assert [] + Ids(posts, Opened) == Ids(posts, Opened);
    DeliverAll(posts, empty);
    if |trades| <= REMEMBERED {
      var pool := set x | x in TradeIds(trades);
      ElementsAreFew(TradeIds(trades));
      forall id | id in Ids(posts, Opened) ensures id in pool {
        DueIsNew(trades, since, empty, Opened, id);
        var k :| 0 <= k < |trades| && trades[k].id == id && DueFor(trades[k], since, Opened);
        assert TradeIds(trades)[k] == id;
      }
      DeliveryExtendsMemory(posts, {}, {}, empty, Opened, pool);
    }
  }

  /** The bound is exact: after a poll that delivered every "opened" post of fresh trades, the next poll
      has nothing to repeat exactly when there are at most 200 of them. */
  lemma MemoryBoundIsTight(since: int, trades: seq<Trade>)
    requires Fresh(since, trades)
    ensures var m := PollOnce(trades, since, {}, Memory([], [])).0;
            Due(trades, since, m) == [] <==> |trades| <= 200
  {
    var m := PollOnce(trades, since, {}, Memory([], [])).0;
    FirstPollMemory(since, trades);
    NothingDue(since, trades, m);
    if Due(trades, since, m) == [] {
      DistinctFit(TradeIds(trades), set x | x in m.openSent);
      ElementsAreFew(m.openSent);
    }
  }
}
