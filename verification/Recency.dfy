// Least-recently-used order of tracks, and what the serial numbers of the cache slots have to do with it.
module Recency {
  import opened Basics
  import opened TrackModel
  import opened CacheModel

  function SetOf(s: seq<nat>): set<nat> {
    set x | x in s
  }

  predicate Distinct(s: seq<nat>) {
    forall a, b :: 0 <= a < b < |s| ==> s[a] != s[b]
  }

  function IndexOf(s: seq<nat>, t: nat): (p: nat)
    requires t in s
    ensures p < |s| && s[p] == t && forall q :: 0 <= q < p ==> s[q] != t
  {
    if s[0] == t then 0 else 1 + IndexOf(s[1..], t)
  }

  function Cut(s: seq<nat>, p: nat): seq<nat>
    requires p < |s|
  {
    s[..p] + s[p + 1..]
  }

  function Without(s: seq<nat>, t: nat): seq<nat> {
    if t in s then Cut(s, IndexOf(s, t)) else s
  }

  function Take(s: seq<nat>, n: nat): seq<nat> {
    if |s| <= n then s else s[..n]
  }

  // The distinct tracks of an access history, most recent first.
  function Mru(history: seq<nat>): seq<nat> {
    if history == [] then []
    else
      var t := history[|history| - 1];
      [t] + Without(Mru(history[..|history| - 1]), t)
  }

  // One access, on a list bounded by n.
  function Touch(recent: seq<nat>, t: nat, n: nat): seq<nat> {
    Take([t] + Without(recent, t), n)
  }

  lemma CutKeepsDistinct(s: seq<nat>, p: nat)
    requires Distinct(s) && p < |s|
    ensures Distinct(Cut(s, p)) && s[p] !in Cut(s, p)
  {
  }

  lemma CutSet(s: seq<nat>, p: nat)
    requires Distinct(s) && p < |s|
    ensures SetOf(Cut(s, p)) == SetOf(s) - {s[p]}
  {
    CutKeepsDistinct(s, p);
    forall x | x in s && x != s[p]
      ensures x in Cut(s, p)
    {
      var q :| 0 <= q < |s| && s[q] == x;
      assert x == if q < p then Cut(s, p)[q] else Cut(s, p)[q - 1];
    }
  }

  lemma WithoutKeepsDistinct(s: seq<nat>, t: nat)
    requires Distinct(s)
    ensures Distinct(Without(s, t)) && t !in Without(s, t)
    ensures SetOf(Without(s, t)) == SetOf(s) - {t}
    ensures |Without(s, t)| == if t in s then |s| - 1 else |s|
  {
    if t in s {
      CutKeepsDistinct(s, IndexOf(s, t));
      CutSet(s, IndexOf(s, t));
    }
  }

  lemma FrontKeepsDistinct(s: seq<nat>, t: nat)
    requires Distinct(s) && t !in s
    ensures Distinct([t] + s) && SetOf([t] + s) == SetOf(s) + {t}
  {
  }

  lemma MoveToFront(s: seq<nat>, t: nat)
    requires Distinct(s)
    ensures Distinct([t] + Without(s, t)) && SetOf([t] + Without(s, t)) == SetOf(s) + {t}
  {
    WithoutKeepsDistinct(s, t);
    FrontKeepsDistinct(Without(s, t), t);
  }

  lemma {:induction false} MruIsDistinct(history: seq<nat>)
    ensures Distinct(Mru(history)) && SetOf(Mru(history)) == SetOf(history)
    decreases |history|
  {
    if history != [] {
      hide Distinct;
      hide Without;
      var n := |history| - 1;
      MruIsDistinct(history[..n]);
      MoveToFront(Mru(history[..n]), history[n]);
      SetOfLast(history);
      hide SetOf;
    }
  }

  lemma SetOfLast(history: seq<nat>)
    requires history != []
    ensures SetOf(history) == SetOf(history[..|history| - 1]) + {history[|history| - 1]}
  {
    assert history == history[..|history| - 1] + [history[|history| - 1]];
  }

  lemma TakeBeforeWithout(s: seq<nat>, t: nat, n: nat)
    requires Distinct(s) && n >= 1
    ensures Take(Without(s, t), n - 1) == Take(Without(Take(s, n), t), n - 1)
  {
    if |s| > n && t in s {
      var p := IndexOf(s, t);
      if p < n {
        assert s[..n][p] == t;
        assert IndexOf(s[..n], t) == p;
        assert Cut(s, p)[..n - 1] == Cut(s[..n], p);
      } else {
        assert t !in s[..n];
        assert Cut(s, p)[..n - 1] == s[..n][..n - 1];
      }
    } else if |s| > n {
      assert t !in s[..n];
    }
  }

  // The bounded list is the first n of the unbounded one after every access.
  lemma TouchFollowsHistory(history: seq<nat>, t: nat, n: nat)
    requires n >= 1
    ensures Take(Mru(history + [t]), n) == Touch(Take(Mru(history), n), t, n)
  {
    assert (history + [t])[..|history|] == history;
    MruIsDistinct(history);
    TakeBeforeWithout(Mru(history), t, n);
    var a, b := Without(Mru(history), t), Without(Take(Mru(history), n), t);
    TakeOfCons(t, a, n);
    TakeOfCons(t, b, n);
  }

  lemma TakeOfCons(t: nat, s: seq<nat>, n: nat)
    requires n >= 1
    ensures Take([t] + s, n) == [t] + Take(s, n - 1)
  {
  }

  predicate LastAccess(history: seq<nat>, p: nat) {
    p < |history| && history[p] !in history[p + 1..]
  }

  // Exactly the tracks of others stand before t in the list.
  ghost predicate StandsBehind(m: seq<nat>, t: nat, others: set<nat>) {
    exists k :: 0 <= k < |m| && m[k] == t && SetOf(m[..k]) == others
  }

  lemma LastAccessBeforeLast(history: seq<nat>, p: nat)
    requires LastAccess(history, p) && p + 1 < |history|
    ensures var n := |history| - 1;
            && LastAccess(history[..n], p) && history[..n][p] == history[p] != history[n]
            && SetOf(history[p + 1..]) == SetOf(history[..n][p + 1..]) + {history[n]}
  {
    var n := |history| - 1;
    assert history[p + 1..] == history[..n][p + 1..] + [history[n]];
  }

  lemma {:induction false} MruSplits(history: seq<nat>, p: nat)
    requires LastAccess(history, p)
    ensures StandsBehind(Mru(history), history[p], SetOf(history[p + 1..]))
    decreases |history|
  {
    var n := |history| - 1;
    if p == n {
      assert Mru(history)[0] == history[n] && Mru(history)[..0] == [] && history[p + 1..] == [];
    } else {
      LastAccessBeforeLast(history, p);
      MruSplits(history[..n], p);
      MruIsDistinct(history[..n]);
      SplitAfterAccess(Mru(history[..n]), history[n], history[p], SetOf(history[..n][p + 1..]));
    }
  }

  lemma SplitAfterAccess(m: seq<nat>, x: nat, t: nat, others: set<nat>)
    requires Distinct(m) && StandsBehind(m, t, others) && t != x
    ensures StandsBehind([x] + Without(m, x), t, others + {x})
  {
    var k :| 0 <= k < |m| && m[k] == t && SetOf(m[..k]) == others;
    var r := [x] + Without(m, x);
    if x in m && IndexOf(m, x) < k {
      SplitBehind(m, IndexOf(m, x), k);
      assert r[k] == t && SetOf(r[..k]) == others + {x};
    } else {
      SplitBefore(m, x, k);
      assert r[k + 1] == t && SetOf(r[..k + 1]) == others + {x};
    }
  }

  lemma SplitBehind(m: seq<nat>, p: nat, k: nat)
    requires p < k < |m|
    ensures ([m[p]] + Cut(m, p))[k] == m[k]
    ensures SetOf(([m[p]] + Cut(m, p))[..k]) == SetOf(m[..k]) + {m[p]}
  {
    var r := [m[p]] + Cut(m, p);
    assert r[..k] == [m[p]] + m[..p] + m[p + 1..k];
    assert m[..k] == m[..p] + [m[p]] + m[p + 1..k];
  }

  lemma SplitBefore(m: seq<nat>, x: nat, k: nat)
    requires k < |m| && (x in m ==> k < IndexOf(m, x))
    ensures k + 1 < |[x] + Without(m, x)| && ([x] + Without(m, x))[k + 1] == m[k]
    ensures SetOf(([x] + Without(m, x))[..k + 1]) == SetOf(m[..k]) + {x}
  {
    assert ([x] + Without(m, x))[..k + 1] == [x] + m[..k];
  }

  lemma {:induction false} DistinctSize(s: seq<nat>)
    requires Distinct(s)
    ensures |SetOf(s)| == |s|
    decreases |s|
  {
    if s != [] {
      var n := |s| - 1;
      DistinctSize(s[..n]);
      assert s == s[..n] + [s[n]];
      assert SetOf(s) == SetOf(s[..n]) + {s[n]};
      assert s[n] !in SetOf(s[..n]);
    }
  }

  // A track is among the first n exactly if fewer than n other tracks were accessed since its last access.
  lemma RecentMeansFewSince(history: seq<nat>, p: nat, n: nat)
    requires LastAccess(history, p)
    ensures history[p] in Take(Mru(history), n) <==> |SetOf(history[p + 1..])| < n
  {
    MruSplits(history, p);
    MruIsDistinct(history);
    var m := Mru(history);
    var k :| 0 <= k < |m| && m[k] == history[p] && SetOf(m[..k]) == SetOf(history[p + 1..]);
    DistinctSize(m[..k]);
    if k < n {
      assert Take(m, n)[k] == m[k];
    } else {
      assert forall j :: 0 <= j < |Take(m, n)| ==> Take(m, n)[j] == m[j] && m[j] != m[k];
    }
  }

  // ---- Slots whose serial numbers stand in that order ----

  function HeldCount(slots: seq<Slot>): nat {
    if slots == [] then 0
    else (if slots[0].track.Some? then 1 else 0) + HeldCount(slots[1..])
  }

  lemma {:induction false} HeldCountAfterUpdate(slots: seq<Slot>, i: nat, slot: Slot)
    requires i < |slots|
    ensures HeldCount(slots[i := slot]) ==
            HeldCount(slots) - (if slots[i].track.Some? then 1 else 0) + (if slot.track.Some? then 1 else 0)
    decreases |slots|
  {
    if i > 0 {
      assert slots[i := slot][1..] == slots[1..][i - 1 := slot];
      HeldCountAfterUpdate(slots[1..], i - 1, slot);
    } else {
      assert slots[i := slot][1..] == slots[1..];
    }
  }

  lemma {:induction false} HeldCountBounds(slots: seq<Slot>)
    ensures HeldCount(slots) <= |slots|
    ensures HeldCount(slots) == |slots| <==> forall i :: 0 <= i < |slots| ==> slots[i].track.Some?
    decreases |slots|
  {
    if slots != [] {
      HeldCountBounds(slots[1..]);
      assert forall i :: 0 <= i < |slots[1..]| ==> slots[1..][i] == slots[i + 1];
    }
  }

  ghost predicate HeldSomewhere(slots: seq<Slot>, n: nat) {
    exists i :: Holds(slots, i) && slots[i].track.value.number == n
  }

  ghost predicate HeldAre(slots: seq<Slot>, recent: seq<nat>) {
    && Distinct(recent) && |recent| == HeldCount(slots)
    && (forall i :: Holds(slots, i) ==> slots[i].track.value.number in recent)
    && (forall n {:trigger HeldSomewhere(slots, n)} :: n in recent ==> HeldSomewhere(slots, n))
  }

  predicate Later(slots: seq<Slot>, recent: seq<nat>, i: int, j: int)
    requires Holds(slots, i) && slots[i].track.value.number in recent
    requires Holds(slots, j) && slots[j].track.value.number in recent
  {
    IndexOf(recent, slots[i].track.value.number) < IndexOf(recent, slots[j].track.value.number) ==>
      slots[i].serial > slots[j].serial
  }

  // The cached tracks are the listed ones, and a more recent one has a higher serial number.
  ghost predicate InOrder(slots: seq<Slot>, serial: nat, recent: seq<nat>) {
    && HeldAre(slots, recent)
    && (forall i :: Holds(slots, i) ==> slots[i].serial <= serial)
    && (forall i, j {:trigger Later(slots, recent, i, j)} :: Holds(slots, i) && Holds(slots, j) ==>
        Later(slots, recent, i, j))
  }

  lemma IndexIsUnique(s: seq<nat>, k: nat)
    requires Distinct(s) && k < |s|
    ensures IndexOf(s, s[k]) == k
  {
  }

  lemma IndexAfterCut(s: seq<nat>, p: nat, n: nat)
    requires Distinct(s) && p < |s| && n in s && n != s[p]
    ensures n in Cut(s, p)
    ensures IndexOf(Cut(s, p), n) == if IndexOf(s, n) < p then IndexOf(s, n) else IndexOf(s, n) - 1
  {
    var k := IndexOf(s, n);
    CutKeepsDistinct(s, p);
    if k < p {
      assert Cut(s, p)[k] == n;
      IndexIsUnique(Cut(s, p), k);
    } else {
      assert Cut(s, p)[k - 1] == n;
      IndexIsUnique(Cut(s, p), k - 1);
    }
  }

  lemma HeldAfterDrop(slots: seq<Slot>, size: nat, blocks: nat, recent: seq<nat>, i: nat)
    requires HeldAre(slots, recent) && Holds(slots, i) && SlotShapes(slots, size, blocks)
    ensures HeldAre(slots[i := slots[i].(track := None)], Without(recent, slots[i].track.value.number))
  {
    var t := slots[i].track.value.number;
    var after, rest := slots[i := slots[i].(track := None)], Without(recent, t);
    WithoutKeepsDistinct(recent, t);
    HeldCountAfterUpdate(slots, i, slots[i].(track := None));
    forall j | Holds(after, j)
      ensures after[j].track.value.number in rest
    {
      assert Holds(slots, j) && slots[j].track.value.number != t;
      assert slots[j].track.value.number in SetOf(rest);
    }
    forall n | n in rest
      ensures HeldSomewhere(after, n)
    {
      assert n in SetOf(rest);
      assert HeldSomewhere(slots, n);
      var j :| Holds(slots, j) && slots[j].track.value.number == n;
      assert Holds(after, j) && after[j].track.value.number == n;
    }
  }

  // Dropping a track leaves the others in order.
  lemma DropKeepsOrder(slots: seq<Slot>, size: nat, blocks: nat, serial: nat, recent: seq<nat>, i: nat)
    requires InOrder(slots, serial, recent) && Holds(slots, i) && SlotShapes(slots, size, blocks)
    ensures InOrder(slots[i := slots[i].(track := None)], serial, Without(recent, slots[i].track.value.number))
  {
    var t := slots[i].track.value.number;
    var after, rest := slots[i := slots[i].(track := None)], Without(recent, t);
    HeldAfterDrop(slots, size, blocks, recent, i);
    forall j, k | Holds(after, j) && Holds(after, k)
      ensures Later(after, rest, j, k)
    {
      assert Holds(slots, j) && Holds(slots, k) && Later(slots, recent, j, k);
      IndexAfterCut(recent, IndexOf(recent, t), slots[j].track.value.number);
      IndexAfterCut(recent, IndexOf(recent, t), slots[k].track.value.number);
    }
  }

  lemma HeldAfterLoad(slots: seq<Slot>, recent: seq<nat>, i: nat, slot: Slot)
    requires HeldAre(slots, recent) && i < |slots| && slots[i].track.None?
    requires slot.track.Some? && slot.track.value.number !in recent
    ensures HeldAre(slots[i := slot], [slot.track.value.number] + recent)
  {
    var t := slot.track.value.number;
    var after := slots[i := slot];
    FrontKeepsDistinct(recent, t);
    HeldCountAfterUpdate(slots, i, slot);
    forall j | Holds(after, j)
      ensures after[j].track.value.number in [t] + recent
    {
      assert j == i || Holds(slots, j);
    }
    forall n | n in [t] + recent
      ensures HeldSomewhere(after, n)
    {
      if n == t {
        assert Holds(after, i) && after[i].track.value.number == n;
      } else {
        assert HeldSomewhere(slots, n);
        var j :| Holds(slots, j) && slots[j].track.value.number == n;
        assert Holds(after, j) && after[j].track.value.number == n;
      }
    }
  }

  lemma IndexAfterFront(s: seq<nat>, t: nat, n: nat)
    requires Distinct(s) && t !in s && (n in s || n == t)
    ensures n in [t] + s
    ensures IndexOf([t] + s, n) == if n == t then 0 else IndexOf(s, n) + 1
  {
    FrontKeepsDistinct(s, t);
    IndexIsUnique([t] + s, if n == t then 0 else IndexOf(s, n) + 1);
  }

  // A load into an empty slot puts a new track in front.
  lemma LoadKeepsOrder(slots: seq<Slot>, serial: nat, recent: seq<nat>, i: nat, slot: Slot)
    requires InOrder(slots, serial, recent) && i < |slots| && slots[i].track.None?
    requires slot.track.Some? && slot.track.value.number !in recent && slot.serial == serial + 1
    ensures InOrder(slots[i := slot], serial + 1, [slot.track.value.number] + recent)
    ensures |recent| < |slots|
  {
    var t := slot.track.value.number;
    var after, moved := slots[i := slot], [t] + recent;
    HeldAfterLoad(slots, recent, i, slot);
    HeldCountBounds(slots);
    forall j, k | Holds(after, j) && Holds(after, k)
      ensures Later(after, moved, j, k)
    {
      assert (j == i || Holds(slots, j)) && (k == i || Holds(slots, k));
      IndexAfterFront(recent, t, after[j].track.value.number);
      IndexAfterFront(recent, t, after[k].track.value.number);
      if j != i && k != i {
        assert Later(slots, recent, j, k);
      }
    }
  }

  // A hit moves the track to the front.
  lemma HitKeepsOrder(slots: seq<Slot>, size: nat, blocks: nat, serial: nat, recent: seq<nat>, i: nat)
    requires InOrder(slots, serial, recent) && Holds(slots, i) && SlotShapes(slots, size, blocks)
    ensures InOrder(slots[i := slots[i].(serial := serial + 1)], serial + 1,
                    Touch(recent, slots[i].track.value.number, |slots|))
  {
    var t := slots[i].track.value.number;
    var slot := slots[i].(serial := serial + 1);
    var dropped := slots[i := slots[i].(track := None)];
    DropKeepsOrder(slots, size, blocks, serial, recent, i);
    WithoutKeepsDistinct(recent, t);
    LoadKeepsOrder(dropped, serial, Without(recent, t), i, slot);
    assert dropped[i := slot] == slots[i := slot];
  }

  // A load of a track that is not cached is one access in the bounded list.
  lemma MissKeepsOrder(slots: seq<Slot>, serial: nat, recent: seq<nat>, i: nat, slot: Slot)
    requires InOrder(slots, serial, recent) && i < |slots| && slots[i].track.None?
    requires slot.track.Some? && slot.track.value.number !in recent && slot.serial == serial + 1
    ensures InOrder(slots[i := slot], serial + 1, Touch(recent, slot.track.value.number, |slots|))
  {
    LoadKeepsOrder(slots, serial, recent, i, slot);
  }

  predicate Oldest(slots: seq<Slot>, i: nat) {
    Holds(slots, i) && forall j :: 0 <= j < |slots| ==> slots[i].serial <= slots[j].serial
  }

  // The slot with the smallest serial number holds the last of the listed tracks.
  lemma OldestIsLast(slots: seq<Slot>, serial: nat, recent: seq<nat>, i: nat)
    requires InOrder(slots, serial, recent) && Oldest(slots, i)
    ensures recent != [] && Without(recent, slots[i].track.value.number) == recent[..|recent| - 1]
  {
    assert slots[i].track.value.number in recent;
    var last := recent[|recent| - 1];
    assert last in recent;
    assert HeldSomewhere(slots, last);
    var j :| Holds(slots, j) && slots[j].track.value.number == last;
    IndexIsUnique(recent, |recent| - 1);
    assert Later(slots, recent, i, j);
  }

  // Replacing the oldest track of a full cache is one access in the bounded list.
  lemma ReplaceKeepsOrder(slots: seq<Slot>, size: nat, blocks: nat, serial: nat, recent: seq<nat>, i: nat, slot: Slot)
    requires InOrder(slots, serial, recent) && Oldest(slots, i) && SlotShapes(slots, size, blocks)
    requires forall j :: 0 <= j < |slots| ==> slots[j].track.Some?
    requires slot.track.Some? && slot.track.value.number !in recent && slot.serial == serial + 1
    ensures InOrder(slots[i := slot], serial + 1, Touch(recent, slot.track.value.number, |slots|))
  {
    var t := slot.track.value.number;
    var dropped, rest := slots[i := slots[i].(track := None)], recent[..|recent| - 1];
    HeldCountBounds(slots);
    OldestIsLast(slots, serial, recent, i);
    DropKeepsOrder(slots, size, blocks, serial, recent, i);
    assert t !in rest;
    LoadKeepsOrder(dropped, serial, rest, i, slot);
    assert dropped[i := slot] == slots[i := slot];
    assert Touch(recent, t, |slots|) == [t] + rest;
  }

  predicate SameNumbers(a: seq<Slot>, b: seq<Slot>) {
    && |a| == |b|
    && forall i :: 0 <= i < |a| ==>
         && a[i].serial == b[i].serial && a[i].track.Some? == b[i].track.Some?
         && (a[i].track.Some? ==> a[i].track.value.number == b[i].track.value.number)
  }

  lemma {:induction false} SameHeldCount(a: seq<Slot>, b: seq<Slot>)
    requires SameNumbers(a, b)
    ensures HeldCount(a) == HeldCount(b)
    decreases |a|
  {
    if a != [] {
      SameHeldCount(a[1..], b[1..]);
    }
  }

  // What a track contains has nothing to do with the order.
  lemma ContentKeepsOrder(a: seq<Slot>, b: seq<Slot>, serial: nat, recent: seq<nat>)
    requires InOrder(a, serial, recent) && SameNumbers(a, b)
    ensures InOrder(b, serial, recent)
  {
    SameHeldCount(a, b);
    forall n | n in recent
      ensures HeldSomewhere(b, n)
    {
      assert HeldSomewhere(a, n);
      var j :| Holds(a, j) && a[j].track.value.number == n;
      assert Holds(b, j) && b[j].track.value.number == n;
    }
    assert forall i :: Holds(b, i) ==> Holds(a, i);
    forall i, j | Holds(b, i) && Holds(b, j)
      ensures Later(b, recent, i, j)
    {
      assert Holds(a, i) && Holds(a, j) && Later(a, recent, i, j);
    }
  }

  // ---- The three ways an access can go, in terms of the access history ----

  ghost predicate RecentInOrder(slots: seq<Slot>, history: seq<nat>) {
    InOrder(slots, |history|, Take(Mru(history), |slots|))
  }

  lemma HitFollowsHistory(slots: seq<Slot>, size: nat, blocks: nat, history: seq<nat>, i: nat)
    requires RecentInOrder(slots, history) && Holds(slots, i) && SlotShapes(slots, size, blocks)
    ensures RecentInOrder(slots[i := slots[i].(serial := |history| + 1)], history + [slots[i].track.value.number])
  {
    TouchFollowsHistory(history, slots[i].track.value.number, |slots|);
    HitKeepsOrder(slots, size, blocks, |history|, Take(Mru(history), |slots|), i);
  }

  lemma NotHeldNotRecent(slots: seq<Slot>, recent: seq<nat>, t: nat)
    requires HeldAre(slots, recent)
    requires forall j :: Holds(slots, j) ==> slots[j].track.value.number != t
    ensures t !in recent
  {
    assert !HeldSomewhere(slots, t);
  }

  lemma MissFollowsHistory(slots: seq<Slot>, history: seq<nat>, i: nat, slot: Slot)
    requires RecentInOrder(slots, history) && i < |slots| && slots[i].track.None?
    requires slot.track.Some? && slot.serial == |history| + 1
    requires forall j :: Holds(slots, j) ==> slots[j].track.value.number != slot.track.value.number
    ensures RecentInOrder(slots[i := slot], history + [slot.track.value.number])
  {
    TouchFollowsHistory(history, slot.track.value.number, |slots|);
    NotHeldNotRecent(slots, Take(Mru(history), |slots|), slot.track.value.number);
    MissKeepsOrder(slots, |history|, Take(Mru(history), |slots|), i, slot);
  }

  lemma ReplaceFollowsHistory(slots: seq<Slot>, size: nat, blocks: nat, history: seq<nat>, i: nat, slot: Slot)
    requires RecentInOrder(slots, history) && Oldest(slots, i) && SlotShapes(slots, size, blocks)
    requires forall j :: 0 <= j < |slots| ==> slots[j].track.Some?
    requires slot.track.Some? && slot.serial == |history| + 1
    requires forall j :: Holds(slots, j) ==> slots[j].track.value.number != slot.track.value.number
    ensures RecentInOrder(slots[i := slot], history + [slot.track.value.number])
  {
    TouchFollowsHistory(history, slot.track.value.number, |slots|);
    NotHeldNotRecent(slots, Take(Mru(history), |slots|), slot.track.value.number);
    ReplaceKeepsOrder(slots, size, blocks, |history|, Take(Mru(history), |slots|), i, slot);
  }
}
