/** The rolling window of load snapshots (internal/signals/window.go): a ring buffer
    overwritten in place, specified by the history of everything ever pushed. */
module Signals {
  import opened Common
  import opened Statistics

  /** One observation of load and role. Observed times are opaque stamps. */
  datatype LoadSnapshot = LoadSnapshot(
    observed: int,
    activeConns: int,
    idleConns: int,
    totalConns: int,
    maxConns: int,
    role: string,
    patroniState: string,
    walLagBytes: int)

  const ZERO_SNAPSHOT := LoadSnapshot(0, 0, 0, 0, 0, "", "", 0)
  const DEFAULT_WINDOW_SIZE := 30

  function Actives(snaps: seq<LoadSnapshot>): (r: seq<int>)
    ensures |r| == |snaps|
  {
    seq(|snaps|, i requires 0 <= i < |snaps| => snaps[i].activeConns)
  }

  function Totals(snaps: seq<LoadSnapshot>): (r: seq<int>)
    ensures |r| == |snaps|
  {
    seq(|snaps|, i requires 0 <= i < |snaps| => snaps[i].totalConns)
  }

  /** The samples of a window, one snapshot at a time. */
  lemma SamplesOfPush(snaps: seq<LoadSnapshot>, snap: LoadSnapshot)
    ensures Actives([]) == [] && Actives(snaps + [snap]) == Actives(snaps) + [snap.activeConns]
    ensures Totals([]) == [] && Totals(snaps + [snap]) == Totals(snaps) + [snap.totalConns]
  {
  }

  /** The window slides: a push is kept, and from a full window the oldest goes. */
  lemma WindowSlides(history: seq<LoadSnapshot>, size: nat, snap: LoadSnapshot)
    requires 0 < size
    ensures Newest<LoadSnapshot>([], size) == []
    ensures Newest(history + [snap], size)
            == if |history| < size then Newest(history, size) + [snap] else Newest(history, size)[1..] + [snap]
  {
  }

  /** What a reader of the most recent snapshot sees after a push history. */
  function LatestOf(history: seq<LoadSnapshot>): Option<LoadSnapshot> {
    if history == [] then None else Some(history[|history| - 1])
  }

  function RoleOf(history: seq<LoadSnapshot>): string {
    if history == [] then "" else history[|history| - 1].role
  }

  /** The write position after n pushes into a ring of the given size. */
  function Slot(n: nat, size: nat): nat {
    if n == 0 || size == 0 then 0
    else if Slot(n - 1, size) + 1 == size then 0
    else Slot(n - 1, size) + 1
  }

  /** The write position is the number of pushes modulo the ring size. */
  lemma {:induction false} SlotIsModulo(n: nat, size: nat)
    requires 0 < size
    ensures Slot(n, size) == n % size
  {
    if n == 0 {
      ModUnique(0, size, 0, 0);
    } else {
      SlotIsModulo(n - 1, size);
      NextModulo(n - 1, size);
    }
  }

  lemma NextModulo(n: nat, size: nat)
    requires 0 < size
    ensures (n + 1) % size == if n % size + 1 == size then 0 else n % size + 1
  {
    var q, r := n / size, n % size;
    assert n == q * size + r;
    if r + 1 == size {
      assert n + 1 == (q + 1) * size;
      ModUnique(n + 1, size, q + 1, 0);
    } else {
      ModUnique(n + 1, size, q, r + 1);
    }
  }

  /** One step forward on the ring, computed with a remainder. */
  lemma StepForward(head: nat, size: nat)
    requires head < size
    ensures (head + 1) % size == if head + 1 == size then 0 else head + 1
  {
    ModUnique(head, size, 0, head);
    NextModulo(head, size);
  }

  lemma ModUnique(n: int, size: nat, q: int, r: int)
    requires 0 < size && 0 <= r < size && n == q * size + r
    ensures n % size == r
  {
    var q', r' := n / size, n % size;
    assert n == q' * size + r';
    assert (q - q') * size == r' - r;
    if q' < q {
      AtLeastOneMultiple(q - q', size);
    } else if q < q' {
      AtLeastOneMultiple(q' - q, size);
    }
  }

  lemma AtLeastOneMultiple(k: int, size: nat)
    requires 1 <= k
    ensures k * size >= size
  {
  }

  class Window {
    const size: nat
    const buf: array<LoadSnapshot>
    var head: nat
    var count: nat
    var full: bool
    /** Every snapshot pushed so far, oldest first. */
    ghost var history: seq<LoadSnapshot>

    ghost predicate Valid()
      reads this, buf
    {
      && 0 < size == buf.Length
      && count == |history|
      && head == Slot(|history|, size)
      && head < size
      && head <= |history|
      && (full <==> |history| >= size)
      && (!full ==> head == |history|)
      && (forall i :: 0 <= i < head ==> buf[i] == history[|history| - head + i])
      && (full ==> forall i :: head <= i < size ==> buf[i] == history[|history| - size + (i - head)])
    }

    /** The abstract content: the newest `size` pushes. */
    ghost function Contents(): seq<LoadSnapshot>
      reads this
    {
      Newest(history, size)
    }

    constructor (requested: int)
      ensures Valid() && fresh(buf) && history == []
      ensures size == if requested <= 0 then 30 else requested
    {
      var n := if requested <= 0 then DEFAULT_WINDOW_SIZE else requested;
      size := n;
      buf := new LoadSnapshot[n](_ => ZERO_SNAPSHOT);
      head, count, full, history := 0, 0, false, [];
    }

    method Push(snap: LoadSnapshot)
      requires Valid()
      modifies this, buf
      ensures Valid() && history == old(history) + [snap]
    {
      StepForward(head, size);
      buf[head] := snap;
      head := (head + 1) % size;
      count := count + 1;
      if count >= size {
        full := true;
      }
      history := history + [snap];
    }

    method Len() returns (n: nat)
      requires Valid()
      ensures n == |Contents()|
    {
      if full {
        return size;
      }
      return count;
    }

    /** The two copies of the wrapped case put the ring back into push order. */
    method Snapshots() returns (out: seq<LoadSnapshot>)
      requires Valid()
      ensures out == Contents()
    {
      if !full && count == 0 {
        return [];
      }
      if full {
        out := buf[head..] + buf[..head];
      } else {
        out := buf[..count];
      }
    }

    method AvgActiveConns() returns (avg: real)
      requires Valid()
      ensures avg == Mean(Actives(Contents()))
      ensures history == [] ==> avg == 0.0
    {
      var snaps := Snapshots();
      if |snaps| == 0 {
        return 0.0;
      }
      var sum := 0;
      for i := 0 to |snaps|
        invariant sum == Sum(Actives(snaps)[..i])
      {
        sum := sum + snaps[i].activeConns;
        assert Actives(snaps)[..i + 1][..i] == Actives(snaps)[..i];
      }
      assert Actives(snaps)[..|snaps|] == Actives(snaps);
      avg := sum as real / |snaps| as real;
    }

    method AvgTotalConns() returns (avg: real)
      requires Valid()
      ensures avg == Mean(Totals(Contents()))
      ensures history == [] ==> avg == 0.0
    {
      var snaps := Snapshots();
      if |snaps| == 0 {
        return 0.0;
      }
      var sum := 0;
      for i := 0 to |snaps|
        invariant sum == Sum(Totals(snaps)[..i])
      {
        sum := sum + snaps[i].totalConns;
        assert Totals(snaps)[..i + 1][..i] == Totals(snaps)[..i];
      }
      assert Totals(snaps)[..|snaps|] == Totals(snaps);
      avg := sum as real / |snaps| as real;
    }

    method P95ActiveConns() returns (r: int)
      requires Valid()
      ensures history == [] ==> r == 0
      ensures history != [] ==>
                IsOrderStatistic(Actives(Contents()), P95Index(|Contents()|), r)
    {
      var snaps := Snapshots();
      if |snaps| == 0 {
        return 0;
      }
      var vals := new int[|snaps|](_ => 0);
      for i := 0 to |snaps|
        invariant vals[..i] == Actives(snaps)[..i]
      {
        vals[i] := snaps[i].activeConns;
      }
      assert vals[..] == Actives(snaps);
      var sorted := SortInts(vals[..]);
      SortIntsSorts(vals[..]);
      var idx := 95 * |sorted| / 100;
      if idx >= |sorted| {
        idx := |sorted| - 1;
      }
      SortedGivesOrderStatistic(vals[..], sorted, idx);
      r := sorted[idx];
    }

    method CurrentRole() returns (role: string)
      requires Valid()
      ensures role == RoleOf(history)
    {
      if !full && count == 0 {
        return "";
      }
      var idx := MostRecent();
      role := buf[idx].role;
    }

    method Latest() returns (snap: LoadSnapshot, ok: bool)
      requires Valid()
      ensures if ok then LatestOf(history) == Some(snap) else history == []
    {
      if !full && count == 0 {
        return ZERO_SNAPSHOT, false;
      }
      var idx := MostRecent();
      return buf[idx], true;
    }

    /** The slot of the newest snapshot, one step behind the write position. */
    method MostRecent() returns (idx: nat)
      requires Valid() && history != []
      ensures idx < size && buf[idx] == history[|history| - 1]
    {
      idx := (head - 1 + size) % size;
      if head == 0 {
        ModUnique(size - 1, size, 0, size - 1);
      } else {
        ModUnique(head - 1 + size, size, 1, head - 1);
      }
    }

    /** Several pushes by the drain goroutine in a row. */
    method PushAll(snaps: seq<LoadSnapshot>)
      requires Valid()
      modifies this, buf
      ensures Valid() && history == old(history) + snaps
    {
      for i := 0 to |snaps|
        invariant Valid() && history == old(history) + snaps[..i]
      {
        Push(snaps[i]);
        assert snaps[..i + 1] == snaps[..i] + [snaps[i]];
      }
      assert snaps[..|snaps|] == snaps;
    }
  }

  /** The percentile depends on which values the window holds, not on their order. */
  lemma P95IgnoresOrder(a: seq<LoadSnapshot>, b: seq<LoadSnapshot>, r: int, s: int)
    requires multiset(Actives(a)) == multiset(Actives(b))
    requires IsOrderStatistic(Actives(a), P95Index(|a|), r)
    requires IsOrderStatistic(Actives(b), P95Index(|b|), s)
    ensures r == s
  {
    assert |a| == |multiset(Actives(a))| == |multiset(Actives(b))| == |b|;
    OrderStatisticUnique(Actives(a), Actives(b), P95Index(|a|), r, s);
  }
}
