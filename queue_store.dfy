/**
 * The arrival queue: per event, a Redis sorted set `queue:{eventId}` whose
 * members are user ids ranked by ascending score, and a counter
 * `queue:sequence:{eventId}` that numbers the arrivals.
 *
 * A sorted set is modelled as the sequence of its entries in rank order.
 * Scores are exact integers timestamp * 1_000_000 + sequence; the double the
 * code computes is modelled separately (DoubleScore) to show what it loses.
 */
module QueueStore {

  import opened Wrappers

  /** One member of a sorted set with its score. */
  datatype Entry = Entry(userId: string, score: int)

  // ---------------------------------------------------------------- scores

  const TWO_POW_53: int := 0x20_0000_0000_0000

  /** The distance between neighbouring doubles around a non-negative integer `x`. */
  function Ulp(x: int): (u: int)
    ensures u >= 1
    decreases x
  {
    if x < TWO_POW_53 then 1 else 2 * Ulp(x / 2)
  }

  /**
   * IEEE 754 round-to-nearest-even of a non-negative integer to a double
   * (integers below 2^53 are exact; overflow to infinity is not modelled).
   */
  function RoundToDouble(x: int): (d: int)
    ensures x < TWO_POW_53 ==> d == x
  {
    if x < TWO_POW_53 then x
    else
      var u := Ulp(x);
      var q := x / u;
      var r := x - q * u;
      if 2 * r < u then q * u
      else if 2 * r > u then (q + 1) * u
      else if q % 2 == 0 then q * u
      else (q + 1) * u
  }

  /** The score as written: `timestamp * 1_000_000.0 + sequence` evaluated in double arithmetic. */
  function DoubleScore(timestamp: int, sequence: int): int
  {
    RoundToDouble(RoundToDouble(timestamp * 1_000_000) + sequence)
  }

  /**
   * At a current epoch-millisecond timestamp the doubles are 256 apart, so
   * two arrivals in the same millisecond get the same double score, and Redis
   * then orders them by user id rather than by arrival.
   */
  lemma SameMillisecondArrivalsTie()
    ensures DoubleScore(1_700_000_000_000, 1) == DoubleScore(1_700_000_000_000, 2)
    ensures DoubleScore(1_700_000_000_000, 1) == 1_700_000_000_000 * 1_000_000
  {
    assert Ulp(6_640_625_000_000_000) == 1;
    assert Ulp(13_281_250_000_000_000) == 2;
    assert Ulp(26_562_500_000_000_000) == 4;
    assert Ulp(53_125_000_000_000_000) == 8;
    assert Ulp(106_250_000_000_000_000) == 16;
    assert Ulp(212_500_000_000_000_000) == 32;
    assert Ulp(425_000_000_000_000_000) == 64;
    assert Ulp(850_000_000_000_000_000) == 128;
    assert Ulp(1_700_000_000_000_000_000) == 256;
    assert Ulp(1_700_000_000_000_000_001) == 256;
    assert Ulp(1_700_000_000_000_000_002) == 256;
    assert RoundToDouble(1_700_000_000_000_000_000) == 1_700_000_000_000_000_000;
    assert RoundToDouble(1_700_000_000_000_000_001) == 1_700_000_000_000_000_000;
    assert RoundToDouble(1_700_000_000_000_000_002) == 1_700_000_000_000_000_000;
  }

  /** The intended score: the millisecond timestamp, then the arrival number, as one exact integer. */
  function Score(timestamp: int, sequence: int): int
  {
    timestamp * 1_000_000 + sequence
  }

  /** A later arrival (same or later millisecond, larger sequence number) gets a larger exact score. */
  lemma {:induction false} ScoreOrdersArrivals(t1: int, q1: int, t2: int, q2: int)
    requires t1 <= t2 && q1 < q2
    ensures Score(t1, q1) < Score(t2, q2)
  {
    assert t1 * 1_000_000 <= t2 * 1_000_000;
  }

  // ------------------------------------------------------- sorted-set values

  predicate Sorted(q: seq<Entry>)
  {
    forall i, j :: 0 <= i < j < |q| ==> q[i].score <= q[j].score
  }

  predicate Distinct(q: seq<Entry>)
  {
    forall i, j :: 0 <= i < j < |q| ==> q[i].userId != q[j].userId
  }

  predicate WellFormed(q: seq<Entry>)
  {
    Sorted(q) && Distinct(q)
  }

  /** The members in rank order. */
  function Members(q: seq<Entry>): (r: seq<string>)
    ensures |r| == |q| && forall i :: 0 <= i < |q| ==> r[i] == q[i].userId
  {
    seq(|q|, i requires 0 <= i < |q| => q[i].userId)
  }

  /** ZRANK: the 0-based position of `u`, or None when `u` is not a member. */
  function RankOf(q: seq<Entry>, u: string): (r: Option<nat>)
    ensures r.Some? ==> r.value < |q| && q[r.value].userId == u
  {
    if q == [] then None
    else if q[0].userId == u then Some(0)
    else
      match RankOf(q[1..], u)
      case None => None
      case Some(k) => Some(k + 1)
  }

  /** The rank is absent exactly for non-members, and otherwise is the first position holding `u`. */
  lemma {:induction false} RankOfMembers(q: seq<Entry>, u: string)
    ensures RankOf(q, u).None? <==> u !in Members(q)
    ensures RankOf(q, u).Some? ==> forall i :: 0 <= i < RankOf(q, u).value ==> q[i].userId != u
  {
    if q != [] {
      assert Members(q) == [q[0].userId] + Members(q[1..]);
      RankOfMembers(q[1..], u);
    }
  }

  /** In a set without duplicates the rank is the only position holding `u`. */
  lemma RankIsUnique(q: seq<Entry>, u: string, i: nat)
    requires Distinct(q) && i < |q| && q[i].userId == u
    ensures RankOf(q, u) == Some(i)
  {
    assert Members(q)[i] == u;
    RankOfMembers(q, u);
  }

  /** ZREM of one member. */
  function Without(q: seq<Entry>, u: string): (r: seq<Entry>)
    ensures forall x :: x in r <==> x in q && x.userId != u
    ensures |r| <= |q|
  {
    if q == [] then []
    else if q[0].userId == u then Without(q[1..], u)
    else [q[0]] + Without(q[1..], u)
  }

  lemma {:induction false} WithoutAbsent(q: seq<Entry>, u: string)
    requires u !in Members(q)
    ensures Without(q, u) == q
  {
    if q != [] {
      assert Members(q) == [q[0].userId] + Members(q[1..]);
      WithoutAbsent(q[1..], u);
    }
  }

  lemma {:induction false} WithoutWellFormed(q: seq<Entry>, u: string)
    requires WellFormed(q)
    ensures WellFormed(Without(q, u))
    ensures |Without(q, u)| == if u in Members(q) then |q| - 1 else |q|
  {
    if q != [] {
      WithoutWellFormed(q[1..], u);
      assert Members(q) == [q[0].userId] + Members(q[1..]);
      if q[0].userId != u {
        HeadBeforeWithout(q, u);
      }
    }
  }

  lemma HeadBeforeWithout(q: seq<Entry>, u: string)
    requires q != [] && WellFormed(q) && WellFormed(Without(q[1..], u))
    ensures WellFormed([q[0]] + Without(q[1..], u))
  {
    var r := Without(q[1..], u);
    forall j | 0 <= j < |r| ensures q[0].score <= r[j].score && q[0].userId != r[j].userId {
      assert r[j] in q[1..];
    }
  }

  /**
   * Leaving keeps everyone else's relative order: a member ranked behind
   * the leaver moves up by one, a member ahead of it keeps its rank.
   */
  lemma {:induction false} RankAfterWithout(q: seq<Entry>, u: string, v: string, k: nat)
    requires Distinct(q) && v != u && RankOf(q, v) == Some(k)
    ensures RankOf(Without(q, u), v) == Some(Shifted(k, RankOf(q, u)))
  {
    if q[0].userId == v {
      assert Without(q, u) == [q[0]] + Without(q[1..], u);
    } else {
      assert RankOf(q[1..], v) == Some(k - 1);
      assert Distinct(q[1..]);
      RankAfterWithout(q[1..], u, v, k - 1);
      RankAfterWithoutStep(q, u, v, k);
    }
  }

  /** The inductive step of RankAfterWithout, for a head other than `v`. */
  lemma RankAfterWithoutStep(q: seq<Entry>, u: string, v: string, k: nat)
    requires Distinct(q) && v != u && q != [] && q[0].userId != v && k >= 1
    requires RankOf(Without(q[1..], u), v) == Some(Shifted(k - 1, RankOf(q[1..], u)))
    ensures RankOf(Without(q, u), v) == Some(Shifted(k, RankOf(q, u)))
  {
    if q[0].userId == u {
      LeaverAtHead(q, u, v, k);
    } else {
      OtherAtHead(q, u, v, k);
    }
  }

  /** When the leaver heads the queue, everyone behind it moves up by one. */
  lemma LeaverAtHead(q: seq<Entry>, u: string, v: string, k: nat)
    requires Distinct(q) && q != [] && q[0].userId == u && k >= 1
    requires RankOf(Without(q[1..], u), v) == Some(Shifted(k - 1, RankOf(q[1..], u)))
    ensures RankOf(Without(q, u), v) == Some(Shifted(k, RankOf(q, u)))
  {
    assert RankOf(q[1..], u) == None by {
      assert u !in Members(q[1..]) by {
        forall i | 0 <= i < |q[1..]| ensures Members(q[1..])[i] != u {
          assert q[1..][i] == q[i + 1];
        }
      }
      RankOfMembers(q[1..], u);
    }
  }

  /** When the head neither leaves nor is `v`, both ranks count it once. */
  lemma OtherAtHead(q: seq<Entry>, u: string, v: string, k: nat)
    requires q != [] && q[0].userId != u && q[0].userId != v && k >= 1
    requires RankOf(Without(q[1..], u), v) == Some(Shifted(k - 1, RankOf(q[1..], u)))
    ensures RankOf(Without(q, u), v) == Some(Shifted(k, RankOf(q, u)))
  {
    var j := RankOf(q[1..], u);
    var m := Shifted(k - 1, j);
    assert RankOf(Without(q, u), v) == Some(m + 1) by {
      var w := Without(q[1..], u);
      WithoutKeepsHead(q, u);
      RankOfCons(q[0], w, v);
    }
    assert Shifted(k, RankOf(q, u)) == m + 1 by {
      RankOfTail(q, u);
      ShiftedPastHead(k, j);
    }
  }

  /** A head of another user stays at the head. */
  lemma WithoutKeepsHead(q: seq<Entry>, u: string)
    requires q != [] && q[0].userId != u
    ensures Without(q, u) == [q[0]] + Without(q[1..], u)
  {
  }

  /** Counting one more entry in front moves both the rank and the leaver's rank by one. */
  lemma ShiftedPastHead(k: nat, j: Option<nat>)
    requires k >= 1
    ensures Shifted(k, if j.Some? then Some(j.value + 1) else None) == Shifted(k - 1, j) + 1
  {
  }

  /** Below a head of another user, the rank is one more than in the tail. */
  lemma RankOfTail(q: seq<Entry>, v: string)
    requires q != [] && q[0].userId != v
    ensures RankOf(q, v) == if RankOf(q[1..], v).Some? then Some(RankOf(q[1..], v).value + 1) else None
  {
  }

  /** An entry for another user in front shifts a rank by one. */
  lemma RankOfCons(h: Entry, t: seq<Entry>, v: string)
    requires h.userId != v
    ensures RankOf([h] + t, v) == if RankOf(t, v).Some? then Some(RankOf(t, v).value + 1) else None
  {
    assert ([h] + t)[1..] == t;
    RankOfTail([h] + t, v);
  }

  /** The rank of a member ranked `k` once the member with rank `leaver` (if any) is gone. */
  function Shifted(k: nat, leaver: Option<nat>): nat
  {
    if leaver.Some? && leaver.value < k then k - 1 else k
  }

  /** Places `x` after every entry whose score is not larger than its own. */
  function InsertByScore(q: seq<Entry>, x: Entry): (r: seq<Entry>)
    ensures |r| == |q| + 1
    ensures forall y :: y in r <==> y in q || y == x
  {
    if q == [] || x.score < q[0].score then [x] + q
    else [q[0]] + InsertByScore(q[1..], x)
  }

  lemma {:induction false} InsertByScoreSorted(q: seq<Entry>, x: Entry)
    requires Sorted(q)
    ensures Sorted(InsertByScore(q, x))
  {
    if q != [] && x.score >= q[0].score {
      InsertByScoreSorted(q[1..], x);
      var r := InsertByScore(q[1..], x);
      forall j | 0 <= j < |r| ensures q[0].score <= r[j].score {
        assert r[j] in q[1..] || r[j] == x;
      }
    }
  }

  lemma {:induction false} InsertByScoreWithout(q: seq<Entry>, x: Entry)
    requires x.userId !in Members(q)
    ensures Without(InsertByScore(q, x), x.userId) == q
  {
    assert q != [] ==> Members(q) == [q[0].userId] + Members(q[1..]);
    if q == [] || x.score < q[0].score {
      WithoutAbsent(q, x.userId);
    } else {
      InsertByScoreWithout(q[1..], x);
    }
  }

  /** When the new score is the largest, the entry goes to the back. */
  lemma {:induction false} InsertByScoreLast(q: seq<Entry>, x: Entry)
    requires forall i :: 0 <= i < |q| ==> q[i].score <= x.score
    ensures InsertByScore(q, x) == q + [x]
  {
    if q != [] {
      InsertByScoreLast(q[1..], x);
    }
  }

  /** ZADD: a new member is inserted; an existing member only gets its new score (and place). */
  function Add(q: seq<Entry>, u: string, score: int): seq<Entry>
  {
    InsertByScore(Without(q, u), Entry(u, score))
  }

  /**
   * ZADD keeps the set well formed, makes `u` a member exactly once, and
   * leaves every other member and their relative order as they were.
   */
  lemma AddProperties(q: seq<Entry>, u: string, score: int)
    requires WellFormed(q)
    ensures WellFormed(Add(q, u, score))
    ensures RankOf(Add(q, u, score), u).Some?
    ensures Without(Add(q, u, score), u) == Without(q, u)
    ensures |Add(q, u, score)| == |Without(q, u)| + 1
  {
    var w := Without(q, u);
    var x := Entry(u, score);
    WithoutWellFormed(q, u);
    InsertByScoreSorted(w, x);
    WithoutNotMember(q, u);
    InsertByScoreWithout(w, x);
    InsertByScoreDistinct(w, x);
    var r := Add(q, u, score);
    assert x in r;
    var i :| 0 <= i < |r| && r[i] == x;
    RankIsUnique(r, u, i);
  }

  lemma WithoutNotMember(q: seq<Entry>, u: string)
    ensures u !in Members(Without(q, u))
  {
  }

  lemma {:induction false} InsertByScoreDistinct(q: seq<Entry>, x: Entry)
    requires Distinct(q) && x.userId !in Members(q)
    ensures Distinct(InsertByScore(q, x))
  {
    if q == [] || x.score < q[0].score {
      forall j | 0 <= j < |q| ensures x.userId != q[j].userId {
        assert Members(q)[j] == q[j].userId;
      }
      DistinctCons(x, q);
    } else {
      assert Members(q) == [q[0].userId] + Members(q[1..]);
      var t := InsertByScore(q[1..], x);
      assert Distinct(t) by {
        assert Distinct(q[1..]);
        InsertByScoreDistinct(q[1..], x);
      }
      forall j | 0 <= j < |t| ensures q[0].userId != t[j].userId {
        assert t[j] in q[1..] || t[j] == x;
        if t[j] in q[1..] {
          var k :| 0 <= k < |q[1..]| && q[1..][k] == t[j];
          assert q[k + 1] == t[j];
        }
      }
      DistinctCons(q[0], t);
    }
  }

  /** An entry whose user is not in a duplicate-free queue can go in front of it. */
  lemma DistinctCons(h: Entry, t: seq<Entry>)
    requires Distinct(t) && forall j :: 0 <= j < |t| ==> h.userId != t[j].userId
    ensures Distinct([h] + t)
  {
    var r := [h] + t;
    forall i, j | 0 <= i < j < |r| ensures r[i].userId != r[j].userId {
      assert r[j] == t[j - 1];
      if i > 0 {
        assert r[i] == t[i - 1];
      }
    }
  }

  /** When no earlier score is larger, the newcomer ranks last: arrival order. */
  lemma ArrivalRanksLast(q: seq<Entry>, u: string, score: int)
    requires WellFormed(q)
    requires forall i :: 0 <= i < |q| ==> q[i].score <= score
    ensures Add(q, u, score) == Without(q, u) + [Entry(u, score)]
    ensures RankOf(Add(q, u, score), u) == Some(|Add(q, u, score)| - 1)
  {
    var w := Without(q, u);
    assert forall i :: 0 <= i < |w| ==> w[i] in q;
    InsertByScoreLast(w, Entry(u, score));
    AddProperties(q, u, score);
    RankIsUnique(Add(q, u, score), u, |w|);
  }

  /** How many entries ZRANGE 0 `stop` returns from a set of `size` entries (a negative stop counts from the end). */
  function RangeLength(size: nat, stop: int): (n: nat)
    ensures n <= size
    ensures stop >= 0 ==> n == if stop + 1 < size then stop + 1 else size
    ensures stop == -1 ==> n == size
  {
    var end := if stop < 0 then size + stop else stop;
    if end < 0 || size == 0 then 0
    else if end >= size then size
    else end + 1
  }

  /** ZRANGE 0 (count - 1): the prefix `popFront` and `getTopUsers` read. */
  function Front(q: seq<Entry>, count: int): (r: seq<Entry>)
    ensures |r| <= |q| && r == q[..|r|]
    ensures count >= 1 ==> |r| == if count < |q| then count else |q|
    ensures count == 0 ==> r == q
  {
    q[..RangeLength(|q|, count - 1)]
  }

  /** ZREM of a set of members. */
  function WithoutAll(q: seq<Entry>, users: set<string>): (r: seq<Entry>)
    ensures forall x :: x in r <==> x in q && x.userId !in users
  {
    if q == [] then []
    else if q[0].userId in users then WithoutAll(q[1..], users)
    else [q[0]] + WithoutAll(q[1..], users)
  }

  function UserSet(q: seq<Entry>): set<string>
  {
    set i | 0 <= i < |q| :: q[i].userId
  }

  lemma {:induction false} WithoutAllIrrelevant(q: seq<Entry>, users: set<string>, u: string)
    requires u !in Members(q)
    ensures WithoutAll(q, users) == WithoutAll(q, users - {u})
  {
    if q != [] {
      assert Members(q) == [q[0].userId] + Members(q[1..]);
      WithoutAllIrrelevant(q[1..], users, u);
    }
  }

  /** Removing the members of a prefix of a duplicate-free set leaves exactly the rest. */
  lemma {:induction false} WithoutPrefix(q: seq<Entry>, n: nat)
    requires Distinct(q) && n <= |q|
    ensures WithoutAll(q, UserSet(q[..n])) == q[n..]
  {
    if n == 0 {
      assert UserSet(q[..0]) == {};
      WithoutAllNone(q);
    } else {
      var s := UserSet(q[..n]);
      var t := UserSet(q[1..][..n - 1]);
      assert q[0].userId in s by { assert q[..n][0] == q[0]; }
      assert s - {q[0].userId} == t by {
        forall v ensures v in s - {q[0].userId} <==> v in t {
          if v in t {
            var i :| 0 <= i < n - 1 && q[1..][..n - 1][i].userId == v;
            assert q[..n][i + 1].userId == v;
          }
          if v in s - {q[0].userId} {
            var i :| 0 <= i < n && q[..n][i].userId == v;
            assert i != 0;
            assert q[1..][..n - 1][i - 1].userId == v;
          }
        }
      }
      assert WithoutAll(q[1..], s) == WithoutAll(q[1..], t) by {
        assert q[0].userId !in Members(q[1..]);
        WithoutAllIrrelevant(q[1..], s, q[0].userId);
      }
      assert WithoutAll(q[1..], t) == q[n..] by {
        assert Distinct(q[1..]);
        WithoutPrefix(q[1..], n - 1);
        assert q[1..][n - 1..] == q[n..];
      }
    }
  }

  lemma {:induction false} WithoutAllNone(q: seq<Entry>)
    ensures WithoutAll(q, {}) == q
  {
    if q != [] {
      WithoutAllNone(q[1..]);
    }
  }

  lemma SuffixWellFormed(q: seq<Entry>, n: nat)
    requires WellFormed(q) && n <= |q|
    ensures WellFormed(q[n..])
  {
    assert forall i :: 0 <= i < |q[n..]| ==> q[n..][i] == q[n + i];
  }

  // -------------------------------------------------------------- the store

  /** The sorted set under `queue:{eventId}`; an absent key reads as the empty set. */
  function QueueOf(queues: map<string, seq<Entry>>, eventId: string): seq<Entry>
  {
    if eventId in queues then queues[eventId] else []
  }

  class QueueRedisRepository {
    /** `queue:{eventId}`; an absent key reads as the empty set. */
    var queues: map<string, seq<Entry>>
    /** `queue:sequence:{eventId}`; an absent key reads as 0. */
    var sequences: map<string, int>

    ghost predicate Valid()
      reads this
    {
      forall e | e in queues :: WellFormed(queues[e])
    }

    constructor ()
      ensures Valid() && queues == map[] && sequences == map[]
    {
      queues := map[];
      sequences := map[];
    }

    function Queue(eventId: string): seq<Entry>
      reads this
    {
      QueueOf(queues, eventId)
    }

    function Sequence(eventId: string): int
      reads this
    {
      if eventId in sequences then sequences[eventId] else 0
    }

    /**
     * `enter`: INCR the event's counter, then ZADD the user with score
     * timestamp * 1_000_000 + sequence; returns the new counter value.
     */
    method Enter(eventId: string, userId: string, timestamp: int) returns (sequence: int)
      requires Valid()
      modifies this
      ensures Valid()
      ensures sequence == old(Sequence(eventId)) + 1
      ensures sequences == old(sequences)[eventId := sequence]
      ensures queues == old(queues)[eventId := Add(old(Queue(eventId)), userId, Score(timestamp, sequence))]
      ensures RankOf(Queue(eventId), userId).Some?
      ensures Without(Queue(eventId), userId) == Without(old(Queue(eventId)), userId)
    {
      sequence := Sequence(eventId) + 1;
      sequences := sequences[eventId := sequence];
      var score := Score(timestamp, sequence);
      AddProperties(Queue(eventId), userId, score);
      queues := queues[eventId := Add(Queue(eventId), userId, score)];
    }

    /** `leave`: ZREM; true iff the user was a member. */
    method Leave(eventId: string, userId: string) returns (removed: bool)
      requires Valid()
      modifies this
      ensures Valid()
      ensures removed == old(RankOf(Queue(eventId), userId)).Some?
      ensures queues == old(queues)[eventId := Without(old(Queue(eventId)), userId)]
      ensures sequences == old(sequences)
      ensures !IsInQueue(eventId, userId)
    {
      removed := RankOf(Queue(eventId), userId).Some?;
      WithoutWellFormed(Queue(eventId), userId);
      queues := queues[eventId := Without(Queue(eventId), userId)];
    }

    /** `getPosition`: the 0-based rank, or null when the user is not queued. */
    function GetPosition(eventId: string, userId: string): (rank: Option<nat>)
      reads this
      ensures rank.Some? ==> rank.value < GetTotalWaiting(eventId) && Queue(eventId)[rank.value].userId == userId
      ensures rank.None? <==> userId !in Members(Queue(eventId))
    {
      RankOfMembers(Queue(eventId), userId);
      RankOf(Queue(eventId), userId)
    }

    predicate IsInQueue(eventId: string, userId: string)
      reads this
      ensures IsInQueue(eventId, userId) <==> userId in Members(Queue(eventId))
    {
      GetPosition(eventId, userId).Some?
    }

    /**
     * `popFront`: ZRANGE 0 (count - 1), then ZREM of the users read when
     * there are any. The two calls are separate store round trips.
     */
    method PopFront(eventId: string, count: int) returns (users: seq<string>)
      requires Valid()
      modifies this
      ensures Valid()
      ensures users == old(GetTopUsers(eventId, count))
      ensures users == Members(old(Queue(eventId))[..|users|])
      ensures count >= 1 ==> |users| == if count < old(GetTotalWaiting(eventId)) then count else old(GetTotalWaiting(eventId))
      ensures count == 0 ==> |users| == old(GetTotalWaiting(eventId))
      ensures queues == if users == [] then old(queues) else old(queues)[eventId := old(Queue(eventId))[|users|..]]
      ensures sequences == old(sequences)
    {
      var q := Queue(eventId);
      var front := Front(q, count);
      users := Members(front);
      if users != [] {
        WithoutPrefix(q, |front|);
        assert UserSet(q[..|front|]) == set u | u in users;
        SuffixWellFormed(q, |front|);
        queues := queues[eventId := WithoutAll(q, set u | u in users)];
      }
    }

    /** `getTotalWaiting`: ZCARD, 0 for an unknown event. */
    function GetTotalWaiting(eventId: string): (n: nat)
      reads this
      ensures n == |Members(Queue(eventId))|
      ensures eventId !in queues ==> n == 0
    {
      |Queue(eventId)|
    }

    /** `getTopUsers`: the same ZRANGE as `popFront`, without removal. */
    function GetTopUsers(eventId: string, count: int): (users: seq<string>)
      reads this
      ensures |users| <= GetTotalWaiting(eventId) && users == Members(Queue(eventId)[..|users|])
      ensures count >= 1 ==> |users| == if count < GetTotalWaiting(eventId) then count else GetTotalWaiting(eventId)
      ensures Valid() ==> forall j, k | 0 <= j < k < |users| :: users[j] != users[k]
    {
      Members(Front(Queue(eventId), count))
    }

    /** `getScore` (diagnostics): the member's score, or null. */
    function GetScore(eventId: string, userId: string): (score: Option<int>)
      reads this
      ensures score.Some? <==> IsInQueue(eventId, userId)
      ensures score.Some? ==> Entry(userId, score.value) in Queue(eventId)
    {
      match RankOf(Queue(eventId), userId)
      case None => None
      case Some(k) => Some(Queue(eventId)[k].score)
    }

    /** `clear`: deletes the queue and its sequence counter. */
    method Clear(eventId: string)
      requires Valid()
      modifies this
      ensures Valid()
      ensures queues == old(queues) - {eventId} && sequences == old(sequences) - {eventId}
      ensures GetTotalWaiting(eventId) == 0 && Sequence(eventId) == 0
    {
      queues := queues - {eventId};
      sequences := sequences - {eventId};
    }
  }
}
