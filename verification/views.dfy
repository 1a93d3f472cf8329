/** The two derived views of the board: the dilemmas of the current emotion
    room, and the top three of those by empathy tokens. Both are computed from
    the state without changing it. */
module Views {
  import opened Records

  /** The dilemmas whose emotion is `e`, in their original order
      (`dilemmas.filter((d) => d.emotion === userEmotionRoom)`). */
  function InRoom(ds: seq<Dilemma>, e: EmotionId): (r: seq<Dilemma>)
    ensures |r| <= |ds|
    ensures forall d :: d in r <==> d in ds && d.emotion == e
  {
    if ds == [] then []
    else (if ds[0].emotion == e then [ds[0]] else []) + InRoom(ds[1..], e)
  }

  /** The positions, at `from` or later, of the dilemmas whose emotion is
      `e`, ascending: a reference description of which dilemmas the room view
      keeps. */
  function RoomPositions(ds: seq<Dilemma>, e: EmotionId, from: nat): (idx: seq<nat>)
    requires from <= |ds|
    ensures forall k :: 0 <= k < |idx| ==> from <= idx[k] < |ds|
    decreases |ds| - from
  {
    if from == |ds| then []
    else (if ds[from].emotion == e then [from] else []) + RoomPositions(ds, e, from + 1)
  }

  /** The listed positions ascend and hold dilemmas of the room. */
  lemma {:induction false} RoomPositionsSound(ds: seq<Dilemma>, e: EmotionId, from: nat)
    requires from <= |ds|
    ensures forall k :: 0 <= k < |RoomPositions(ds, e, from)| ==>
      ds[RoomPositions(ds, e, from)[k]].emotion == e
    ensures forall k, l :: 0 <= k < l < |RoomPositions(ds, e, from)| ==>
      RoomPositions(ds, e, from)[k] < RoomPositions(ds, e, from)[l]
    decreases |ds| - from
  {
    if from < |ds| {
      var head: seq<nat> := if ds[from].emotion == e then [from] else [];
      var rest := RoomPositions(ds, e, from + 1);
      var idx := RoomPositions(ds, e, from);
      RoomPositionsSound(ds, e, from + 1);
      assert idx == head + rest;
      forall k | 0 <= k < |idx| ensures ds[idx[k]].emotion == e {
        if k >= |head| {
          assert idx[k] == rest[k - |head|];
        }
      }
      forall k, l | 0 <= k < l < |idx| ensures idx[k] < idx[l] {
        assert idx[l] == rest[l - |head|];
        if k >= |head| {
          assert idx[k] == rest[k - |head|];
        }
      }
    }
  }

  /** Every dilemma of the room at `from` or later has its position listed. */
  lemma {:induction false} RoomPositionsComplete(ds: seq<Dilemma>, e: EmotionId, from: nat, i: nat)
    requires from <= i < |ds| && ds[i].emotion == e
    ensures i in RoomPositions(ds, e, from)
    decreases i - from
  {
    if from < i {
      RoomPositionsComplete(ds, e, from + 1, i);
    }
  }

  /** The room view of `ds[from..]` keeps exactly the dilemmas at
      `RoomPositions`, in that order: the filter is stable and drops nothing
      of the room. */
  lemma {:induction false} InRoomIsStableSelection(ds: seq<Dilemma>, e: EmotionId, from: nat)
    requires from <= |ds|
    ensures |InRoom(ds[from..], e)| == |RoomPositions(ds, e, from)|
    ensures forall k :: 0 <= k < |InRoom(ds[from..], e)| ==>
      InRoom(ds[from..], e)[k] == ds[RoomPositions(ds, e, from)[k]]
    decreases |ds| - from
  {
    if from < |ds| {
      InRoomIsStableSelection(ds, e, from + 1);
      assert ds[from..][1..] == ds[from + 1..];
    }
  }

  /** `filteredDilemmas`: every dilemma when the room is falsy (`null` or ""),
      otherwise exactly those of the room. */
  function RoomView(ds: seq<Dilemma>, room: Option<EmotionId>): (v: seq<Dilemma>)
    ensures !Present(room) ==> v == ds
    ensures Present(room) ==> forall d :: d in v <==> d in ds && d.emotion == room.value
  {
    if !Present(room) then ds else InRoom(ds, room.value)
  }

  /** Non-increasing by total tokens. */
  predicate SortedByTokens(s: seq<Dilemma>) {
    forall i, j :: 0 <= i < j < |s| ==> s[i].totalTokens >= s[j].totalTokens
  }

  /** Places `d` ahead of the first dilemma of `s` that has no more tokens
      than it, so that `d` stays ahead of its ties. */
  function Insert(d: Dilemma, s: seq<Dilemma>): seq<Dilemma> {
    if s == [] || d.totalTokens >= s[0].totalTokens then [d] + s
    else [s[0]] + Insert(d, s[1..])
  }

  /** Inserting into a sorted sequence keeps it sorted and adds exactly `d`. */
  lemma {:induction false} InsertIntoSorted(d: Dilemma, s: seq<Dilemma>)
    requires SortedByTokens(s)
    ensures |Insert(d, s)| == |s| + 1
    ensures SortedByTokens(Insert(d, s))
    ensures multiset(Insert(d, s)) == multiset(s) + multiset{d}
  {
    if s != [] && d.totalTokens < s[0].totalTokens {
      InsertIntoSorted(d, s[1..]);
      InsertBehind(d, s, Insert(d, s[1..]));
    }
  }

  /** The step of `Insert` that keeps the head of `s` in front. */
  lemma InsertBehind(d: Dilemma, s: seq<Dilemma>, rest: seq<Dilemma>)
    requires SortedByTokens(s) && s != [] && d.totalTokens < s[0].totalTokens
    requires SortedByTokens(rest) && multiset(rest) == multiset(s[1..]) + multiset{d}
    ensures SortedByTokens([s[0]] + rest)
    ensures multiset([s[0]] + rest) == multiset(s) + multiset{d}
  {
    forall x | x in rest ensures x.totalTokens <= s[0].totalTokens {
      assert x in multiset(rest);
    }
    assert s == [s[0]] + s[1..];
  }

  /** The copy sorted by the comparator `(b.totalTokens || 0) - (a.totalTokens || 0)`:
      a permutation, non-increasing by tokens. The sort is stable
      (section 22.1.3.27 of ECMAScript 2019), which `SortIsStable` states. */
  function SortByTokens(ds: seq<Dilemma>): (r: seq<Dilemma>)
    ensures |r| == |ds|
    ensures SortedByTokens(r)
    ensures multiset(r) == multiset(ds)
  {
    if ds == [] then []
    else
      assert ds == [ds[0]] + ds[1..];
      InsertIntoSorted(ds[0], SortByTokens(ds[1..]));
      Insert(ds[0], SortByTokens(ds[1..]))
  }

  /** The dilemmas of `ds` whose total is `t`, in order. */
  function WithTokens(ds: seq<Dilemma>, t: nat): seq<Dilemma> {
    if ds == [] then []
    else (if ds[0].totalTokens == t then [ds[0]] else []) + WithTokens(ds[1..], t)
  }

  lemma {:induction false} WithTokensAppend(a: seq<Dilemma>, b: seq<Dilemma>, t: nat)
    ensures WithTokens(a + b, t) == WithTokens(a, t) + WithTokens(b, t)
  {
    if a == [] {
      assert a + b == b;
    } else {
      assert (a + b)[1..] == a[1..] + b;
      WithTokensAppend(a[1..], b, t);
    }
  }

  /** Inserting `d` puts it in front of every dilemma with the same total. */
  lemma {:induction false} InsertKeepsTies(d: Dilemma, s: seq<Dilemma>, t: nat)
    ensures WithTokens(Insert(d, s), t) == (if d.totalTokens == t then [d] else []) + WithTokens(s, t)
  {
    if s == [] || d.totalTokens >= s[0].totalTokens {
      WithTokensAppend([d], s, t);
    } else {
      InsertKeepsTies(d, s[1..], t);
      InsertPassesHead(d, s, t);
    }
  }

  /** When `d` goes behind the head of `s`, the head and `d` cannot both have total `t`. */
  lemma InsertPassesHead(d: Dilemma, s: seq<Dilemma>, t: nat)
    requires s != [] && d.totalTokens < s[0].totalTokens
    requires WithTokens(Insert(d, s[1..]), t) == (if d.totalTokens == t then [d] else []) + WithTokens(s[1..], t)
    ensures WithTokens(Insert(d, s), t) == (if d.totalTokens == t then [d] else []) + WithTokens(s, t)
  {
    var rest := Insert(d, s[1..]);
    assert Insert(d, s) == [s[0]] + rest;
    assert s == [s[0]] + s[1..];
    WithTokensAppend([s[0]], rest, t);
    WithTokensAppend([s[0]], s[1..], t);
    assert [s[0]][1..] == [];
    if d.totalTokens == t {
      assert WithTokens([s[0]], t) == [];
    } else {
      assert WithTokens(Insert(d, s[1..]), t) == WithTokens(s[1..], t);
    }
  }

  /** Stability: for every total, the dilemmas with that total appear in the
      sorted copy in the same order as in the input. */
  lemma {:induction false} SortIsStable(ds: seq<Dilemma>, t: nat)
    ensures WithTokens(SortByTokens(ds), t) == WithTokens(ds, t)
  {
    if ds != [] {
      SortIsStable(ds[1..], t);
      InsertKeepsTies(ds[0], SortByTokens(ds[1..]), t);
    }
  }

  /** The dilemmas with a given total in a prefix are a prefix of those in the whole. */
  lemma WithTokensOfPrefix(s: seq<Dilemma>, n: nat, t: nat)
    requires n <= |s|
    ensures WithTokens(s[..n], t) <= WithTokens(s, t)
  {
    assert s == s[..n] + s[n..];
    WithTokensAppend(s[..n], s[n..], t);
  }

  const TrendingCount: nat := 3

  /** `trendingDilemmas`: the first three of the sorted copy of the room view.
      As many entries as the view has, up to three; drawn from the view;
      non-increasing by tokens; no dilemma of the view left out has more
      tokens than any entry; and for each total, the entries with that total
      are the first dilemmas of the view with that total, in view order. */
  function Trending(ds: seq<Dilemma>, room: Option<EmotionId>): (r: seq<Dilemma>)
    ensures |r| == if |RoomView(ds, room)| < TrendingCount then |RoomView(ds, room)| else TrendingCount
    ensures multiset(r) <= multiset(RoomView(ds, room))
    ensures SortedByTokens(r)
    ensures forall y :: y in multiset(RoomView(ds, room)) - multiset(r) ==>
      forall k :: 0 <= k < |r| ==> r[k].totalTokens >= y.totalTokens
    ensures forall t: nat :: WithTokens(r, t) <= WithTokens(RoomView(ds, room), t)
  {
    var v := RoomView(ds, room);
    var n := if |v| < TrendingCount then |v| else TrendingCount;
    PrefixOfSorted(SortByTokens(v), n);
    TopKeepsTies(v, n);
    SortByTokens(v)[..n]
  }

  /** The ties taken into the first `n` of the sorted copy of `v` come first
      among the ties of `v`, in the order of `v`. */
  lemma TopKeepsTies(v: seq<Dilemma>, n: nat)
    requires n <= |v|
    ensures forall t: nat :: WithTokens(SortByTokens(v)[..n], t) <= WithTokens(v, t)
  {
    forall t: nat ensures WithTokens(SortByTokens(v)[..n], t) <= WithTokens(v, t) {
      WithTokensOfPrefix(SortByTokens(v), n, t);
      SortIsStable(v, t);
    }
  }

  /** A prefix of a sorted sequence is sorted and holds the largest totals. */
  lemma PrefixOfSorted(sorted: seq<Dilemma>, n: nat)
    requires SortedByTokens(sorted) && n <= |sorted|
    ensures SortedByTokens(sorted[..n])
    ensures multiset(sorted[..n]) <= multiset(sorted)
    ensures forall y :: y in multiset(sorted) - multiset(sorted[..n]) ==>
      forall k :: 0 <= k < n ==> sorted[k].totalTokens >= y.totalTokens
  {
    assert sorted == sorted[..n] + sorted[n..];
    forall y | y in multiset(sorted) - multiset(sorted[..n])
      ensures forall k :: 0 <= k < n ==> sorted[k].totalTokens >= y.totalTokens
    {
      LeftOutIsInSuffix(sorted, n, y);
      var j := IndexOfDilemma(sorted[n..], y);
      assert sorted[n + j] == y;
    }
  }

  /** A dilemma that the first `n` of `s` do not account for occurs after them. */
  lemma LeftOutIsInSuffix(s: seq<Dilemma>, n: nat, y: Dilemma)
    requires n <= |s| && y in multiset(s) - multiset(s[..n])
    ensures y in s[n..]
  {
    assert s == s[..n] + s[n..];
    assert multiset(s) == multiset(s[..n]) + multiset(s[n..]);
    assert y in multiset(s[n..]);
  }

  /** Some position of `x` in `s`. */
  function IndexOfDilemma(s: seq<Dilemma>, x: Dilemma): (k: nat)
    requires x in s
    ensures k < |s| && s[k] == x
  {
    if s[0] == x then 0 else 1 + IndexOfDilemma(s[1..], x)
  }
}
