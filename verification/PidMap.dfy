/** player.c's player ids: an array of entries that doubles as the list of free ids. */
module PidMap {
  const PID_REUSE_DELAY: int := 10

  class Player {
    var pid: int

    constructor (pid: int)
      ensures this.pid == pid
    {
      this.pid := pid;
    }
  }

  datatype Entry = Entry(p: Player?, next: int, available: int)

  // ------------------------------------------------------------- free lists

  ghost predicate Distinct(s: seq<int>) { forall i, j | 0 <= i < j < |s| :: s[i] != s[j] }

  /** The k-th id of a list, -1 past its end. */
  function At(free: seq<int>, k: nat): int { if k < |free| then free[k] else -1 }

  /** The entries link the ids of `free` in that order, ending in -1; as they are all
      different the list has no cycle. */
  ghost predicate Linked(map': seq<Entry>, free: seq<int>) {
    Distinct(free) && InRange(free, |map'|) && forall i | 0 <= i < |free| :: LinkAt(map', free, i)
  }

  ghost predicate InRange(free: seq<int>, size: int) { forall i | 0 <= i < |free| :: 0 <= free[i] < size }

  /** The i-th id links to the one after it. */
  predicate LinkAt(map': seq<Entry>, free: seq<int>, i: nat) {
    i < |free| && 0 <= free[i] < |map'| && map'[free[i]].next == At(free, i + 1)
  }

  /** Where the search of NewPlayer stops. */
  function FirstAvailable(map': seq<Entry>, free: seq<int>, now: int, k: nat): nat
    decreases |free| - k, free
  {
    if k >= |free| || (0 <= free[k] < |map'| && map'[free[k]].available <= now) then k
    else FirstAvailable(map', free, now, k + 1)
  }

  function Removed(free: seq<int>, k: nat): seq<int>
    requires k < |free|
  {
    free[..k] + free[k + 1..]
  }

  lemma RemovedMembers(free: seq<int>, k: nat)
    requires k < |free| && Distinct(free)
    ensures Distinct(Removed(free, k))
    ensures forall x :: x in Removed(free, k) <==> x in free && x != free[k]
  {
  }

  /** Unlinking the k-th id: the link to it, from the entry before or from the head,
      takes over its own link. */
  lemma Unlink(map': seq<Entry>, free: seq<int>, k: nat)
    requires Linked(map', free) && k < |free|
    ensures At(free, k + 1) == map'[free[k]].next
    ensures Linked(Relinked(map', free, k), Removed(free, k))
    ensures At(Removed(free, k), 0) == At(free, if k == 0 then 1 else 0)
  {
    RemovedMembers(free, k);
    assert LinkAt(map', free, k);
    var r, m := Removed(free, k), Relinked(map', free, k);
    forall i | 0 <= i < |r| ensures LinkAt(m, r, i) {
      UnlinkAt(map', free, k, i);
    }
  }

  function Relinked(map': seq<Entry>, free: seq<int>, k: nat): seq<Entry>
    requires k < |free| && InRange(free, |map'|)
  {
    if k == 0 then map' else map'[free[k - 1] := map'[free[k - 1]].(next := At(free, k + 1))]
  }

  lemma UnlinkAt(map': seq<Entry>, free: seq<int>, k: nat, i: nat)
    requires Linked(map', free) && k < |free| && i + 1 < |free|
    ensures LinkAt(Relinked(map', free, k), Removed(free, k), i)
  {
    var j := if i < k then i else i + 1;
    assert LinkAt(map', free, j);
    assert j != k - 1 && k > 0 ==> free[j] != free[k - 1];
  }

  lemma PushFree(map': seq<Entry>, free: seq<int>, pid: int)
    requires Linked(map', free) && 0 <= pid < |map'| && pid !in free
    requires map'[pid].next == At(free, 0)
    ensures Linked(map', [pid] + free)
  {
    var more := [pid] + free;
    forall i | 0 <= i < |more| ensures LinkAt(map', more, i) {
      assert i > 0 ==> LinkAt(map', free, i - 1);
    }
  }

  /** Changing entries that are not in the list leaves the links. */
  lemma StillLinked(map': seq<Entry>, map'': seq<Entry>, free: seq<int>)
    requires Linked(map', free) && |map'| <= |map''|
    requires forall pid | 0 <= pid < |map'| && pid in free :: map''[pid].next == map'[pid].next
    ensures Linked(map'', free)
  {
    forall i | 0 <= i < |free| ensures LinkAt(map'', free, i) {
      assert LinkAt(map', free, i);
    }
  }

  function Range(lo: int, n: nat): seq<int> { seq(n, i => lo + i) }

  lemma RangeMembers(lo: int, n: nat, free: seq<int>)
    requires Distinct(free) && InRange(free, lo)
    ensures Distinct(Range(lo, n) + free)
    ensures forall x :: x in Range(lo, n) + free <==> lo <= x < lo + n || x in free
  {
    forall x | lo <= x < lo + n ensures x in Range(lo, n) { assert Range(lo, n)[x - lo] == x; }
  }

  /** Doubling: the new ids come first, linked in a row, and the last one to the old head. */
  lemma GrownLinked(map': seq<Entry>, bigger: seq<Entry>, free: seq<int>)
    requires Linked(map', free) && |bigger| == 2 * |map'| && |map'| >= 1
    requires forall pid | 0 <= pid < |map'| :: bigger[pid] == map'[pid]
    requires forall pid | |map'| <= pid < |bigger| ::
               bigger[pid].next == if pid == |bigger| - 1 then At(free, 0) else pid + 1
    ensures Linked(bigger, Range(|map'|, |map'|) + free)
  {
    var size := |map'|;
    RangeMembers(size, size, free);
    var more := Range(size, size) + free;
    forall i | 0 <= i < |more| ensures LinkAt(bigger, more, i) {
      assert i >= size ==> LinkAt(map', free, i - size);
    }
  }

  lemma {:induction false} FirstAvailableMeans(map': seq<Entry>, free: seq<int>, now: int, k: nat)
    requires InRange(free, |map'|) && k <= |free|
    ensures k <= FirstAvailable(map', free, now, k) <= |free|
    ensures forall i | k <= i < FirstAvailable(map', free, now, k) :: map'[free[i]].available > now
    ensures FirstAvailable(map', free, now, k) < |free| ==>
              map'[free[FirstAvailable(map', free, now, k)]].available <= now
    decreases |free| - k
  {
    if k < |free| { FirstAvailableMeans(map', free, now, k + 1); }
  }

  /** A search from the head stops at the first id whose delay is over. */
  lemma {:induction false} FirstAvailableIs(map': seq<Entry>, free: seq<int>, now: int, k: nat, j: nat)
    requires InRange(free, |map'|) && k <= j <= |free|
    requires forall i | k <= i < j :: map'[free[i]].available > now
    ensures FirstAvailable(map', free, now, k) == FirstAvailable(map', free, now, j)
    decreases j - k
  {
    if k < j { FirstAvailableIs(map', free, now, k + 1, j); }
  }

  class PlayerData {
    var pidmap: array<Entry>
    var firstfreepid: int
    var pidmapsize: int
    /** The list of free ids. */
    ghost var free: seq<int>
    /** When each id was last given up. */
    ghost var freedAt: map<int, int>

    ghost predicate Valid()
      reads this, pidmap, set i | 0 <= i < pidmap.Length && pidmap[i].p != null :: pidmap[i].p
    {
      FreeListOk() && EntriesOk(-1)
    }

    ghost predicate FreeListOk()
      reads this, pidmap
    {
      1 <= pidmapsize == pidmap.Length && Linked(pidmap[..], free) && firstfreepid == At(free, 0)
    }

    /** The free ids are the ids without a player, but for one that is being issued; every
        player knows its id. */
    ghost predicate EntriesOk(issued: int)
      requires pidmapsize == pidmap.Length
      reads this, pidmap, set i | 0 <= i < pidmap.Length && pidmap[i].p != null :: pidmap[i].p
    {
      && (forall pid | 0 <= pid < pidmapsize && pid != issued :: pid in free <==> pidmap[pid].p == null)
      && (forall pid | 0 <= pid < pidmapsize && pidmap[pid].p != null :: pidmap[pid].p.pid == pid)
      && (forall pid | pid in freedAt :: 0 <= pid < pidmapsize)
      && (forall pid | pid in freedAt && pid in free :: pidmap[pid].available == freedAt[pid] + 10)
    }

    /** The part of module loading that sets up the map. */
    constructor ()
      ensures Valid() && fresh(pidmap) && pidmapsize == 256 && freedAt == map[]
      ensures forall pid | 0 <= pid < 256 :: pidmap[pid].p == null
    {
      pidmapsize := 256;
      pidmap := new Entry[256](i => Entry(null, if i == 255 then -1 else i + 1, 0));
      firstfreepid := 0;
      free := seq(256, i => i);
      freedAt := map[];
      new;
      forall i | 0 <= i < 256 ensures LinkAt(pidmap[..], free, i) { assert pidmap[..][i] == pidmap[i]; }
      forall pid | 0 <= pid < 256 ensures pid in free { assert free[pid] == pid; }
    }

    method PidToPlayer(pid: int) returns (p: Player?)
      requires Valid()
      ensures p == if 0 <= pid < pidmapsize then pidmap[pid].p else null
      ensures p != null ==> p.pid == pid
    {
      if pid >= 0 && pid < pidmapsize { return pidmap[pid].p; }
      return null;
    }

    method FreePlayer(p: Player, now: int)
      requires Valid() && 0 <= p.pid < pidmapsize && pidmap[p.pid].p == p
      modifies this`firstfreepid, this`free, this`freedAt, pidmap
      ensures Valid() && free == [p.pid] + old(free) && freedAt == old(freedAt)[p.pid := now]
      ensures pidmap[p.pid].p == null
      ensures forall pid | 0 <= pid < pidmapsize && pid != p.pid :: pidmap[pid] == old(pidmap[pid])
    {
      var pid := p.pid;
      pidmap[pid] := Entry(null, firstfreepid, now + PID_REUSE_DELAY);
      firstfreepid := pid;
      StillLinked(old(pidmap[..]), pidmap[..], free);
      PushFree(pidmap[..], free, pid);
      free := [pid] + free;
      freedAt := freedAt[pid := now];
    }

    /** The branch of NewPlayer that doubles the map. */
    method Grow()
      requires Valid()
      modifies this`pidmap, this`pidmapsize, this`firstfreepid, this`free
      ensures Valid() && fresh(pidmap) && pidmapsize == 2 * old(pidmapsize)
      ensures free == Range(old(pidmapsize), old(pidmapsize)) + old(free)
      ensures forall pid | 0 <= pid < old(pidmapsize) :: pidmap[pid] == old(pidmap[pid])
      ensures forall pid | old(pidmapsize) <= pid < pidmapsize :: pidmap[pid].p == null
    {
      var newsize := pidmapsize * 2;
      var bigger := new Entry[newsize](i requires 0 <= i < newsize reads this, pidmap =>
        if i < pidmap.Length then pidmap[i] else Entry(null, if i == newsize - 1 then firstfreepid else i + 1, 0));
      GrownLinked(pidmap[..], bigger[..], free);
      RangeMembers(pidmapsize, pidmapsize, free);
      free := Range(pidmapsize, pidmapsize) + free;
      firstfreepid := pidmapsize;
      pidmap := bigger;
      pidmapsize := newsize;
    }

    /** The search of NewPlayer: ptr is the place that holds pid, -1 for firstfreepid
        itself and else the id whose entry links to it. */
    method Search(now: int) returns (ptr: int, pid: int, ghost k: nat)
      requires Valid()
      ensures k == FirstAvailable(pidmap[..], free, now, 0) <= |free| && pid == At(free, k)
      ensures ptr == if k == 0 then -1 else free[k - 1]
      ensures k < |free| ==> pidmap[pid].available <= now
    {
      ptr, pid, k := -1, firstfreepid, 0;
      while pid != -1 && pidmap[pid].available > now
        invariant k <= |free| && pid == At(free, k) && (ptr == if k == 0 then -1 else free[k - 1])
        invariant forall i | 0 <= i < k :: pidmap[free[i]].available > now
        decreases |free| - k
      {
        assert LinkAt(pidmap[..], free, k);
        ptr := pid;
        pid := pidmap[pid].next;
        k := k + 1;
      }
      FirstAvailableIs(pidmap[..], free, now, 0, k);
    }

    /** Taking the k-th free id off the list. */
    method Take(ptr: int, pid: int, ghost k: nat)
      requires Valid() && k < |free| && pid == free[k] && (ptr == if k == 0 then -1 else free[k - 1])
      modifies this`firstfreepid, this`free, pidmap
      ensures FreeListOk() && EntriesOk(pid) && free == Removed(old(free), k)
      ensures forall i | 0 <= i < pidmap.Length :: pidmap[i].p == old(pidmap[i].p)
      ensures forall i | 0 <= i < pidmap.Length :: pidmap[i].available == old(pidmap[i].available)
      ensures forall i :: i in free <==> i in old(free) && i != pid
    {
      Unlink(pidmap[..], free, k);
      RemovedMembers(free, k);
      ghost var relinked := Relinked(pidmap[..], free, k);
      if ptr == -1 {
        firstfreepid := pidmap[pid].next;
      } else {
        pidmap[ptr] := pidmap[ptr].(next := pidmap[pid].next);
      }
      assert pidmap[..] == relinked;
      free := Removed(free, k);
    }

    /** The search, and a doubled map when it finds nothing. */
    method FindOrGrow(now: int) returns (ptr: int, pid: int, ghost k: nat)
      requires Valid()
      modifies this`pidmap, this`pidmapsize, this`firstfreepid, this`free
      ensures Valid() && k < |free| && pid == free[k] && (ptr == if k == 0 then -1 else free[k - 1])
      ensures var k0 := FirstAvailable(old(pidmap[..]), old(free), now, 0);
              if k0 < |old(free)| then
                k == k0 && pidmap == old(pidmap) && pidmapsize == old(pidmapsize) && free == old(free)
              else
                k == 0 && fresh(pidmap) && pidmapsize == 2 * old(pidmapsize)
                && free == Range(old(pidmapsize), old(pidmapsize)) + old(free)
      ensures old(pidmapsize) <= pidmapsize
      ensures forall i | 0 <= i < old(pidmapsize) :: pidmap[i].p == old(pidmap[i].p)
      ensures forall i | old(pidmapsize) <= i < pidmapsize :: pidmap[i].p == null
      ensures pid in freedAt ==> now >= freedAt[pid] + 10
    {
      ptr, pid, k := Search(now);
      if pid == -1 {
        assert k == |free|;
        Grow();
        ptr, pid, k := -1, firstfreepid, 0;
      }
    }

    /** NewPlayer takes the first free id whose delay is over, or a new one. */
    method NewPlayer(now: int) returns (p: Player)
      requires Valid()
      modifies this`pidmap, this`pidmapsize, this`firstfreepid, this`free, pidmap
      ensures Valid() && fresh(p) && 0 <= p.pid < pidmapsize && pidmap[p.pid].p == p
      ensures var k := FirstAvailable(old(pidmap[..]), old(free), now, 0);
              if k < |old(free)| then
                pidmapsize == old(pidmapsize) && p.pid == old(free)[k] && free == Removed(old(free), k)
              else
                pidmapsize == 2 * old(pidmapsize) && p.pid == old(pidmapsize)
                && free == Removed(Range(old(pidmapsize), old(pidmapsize)) + old(free), 0)
      ensures old(pidmapsize) <= pidmapsize
      ensures forall pid | 0 <= pid < old(pidmapsize) && pid != p.pid :: pidmap[pid].p == old(pidmap[pid].p)
      ensures forall pid | old(pidmapsize) <= pid < pidmapsize && pid != p.pid :: pidmap[pid].p == null
      ensures p.pid in freedAt ==> now >= freedAt[p.pid] + 10
    {
      ghost var k;
      var ptr, pid;
      ptr, pid, k := FindOrGrow(now);
      p := TakeAndIssue(ptr, pid, k);
    }

    /** The found id leaves the list and gets its player. */
    method TakeAndIssue(ptr: int, pid: int, ghost k: nat) returns (p: Player)
      requires Valid() && k < |free| && pid == free[k] && (ptr == if k == 0 then -1 else free[k - 1])
      modifies this`firstfreepid, this`free, pidmap
      ensures Valid() && fresh(p) && p.pid == pid && 0 <= pid < pidmapsize && pidmap[pid].p == p
      ensures free == Removed(old(free), k)
      ensures forall i | 0 <= i < pidmap.Length && i != pid :: pidmap[i].p == old(pidmap[i].p)
    {
      Take(ptr, pid, k);
      p := Issue(pid);
    }

    /** Setting up the player of the id that has been taken. */
    method Issue(pid: int) returns (p: Player)
      requires FreeListOk() && EntriesOk(pid) && 0 <= pid < pidmapsize && pid !in free && pidmap[pid].p == null
      modifies pidmap
      ensures Valid() && fresh(p) && p.pid == pid && pidmap[pid].p == p
      ensures forall i | 0 <= i < pidmap.Length && i != pid :: pidmap[i] == old(pidmap[i])
    {
      p := new Player(pid);
      StillLinked(pidmap[..], pidmap[..][pid := pidmap[pid].(p := p)], free);
      ghost var issued := pidmap[..][pid := pidmap[pid].(p := p)];
      pidmap[pid] := pidmap[pid].(p := p);
      assert pidmap[..] == issued;
    }
  }

  /** Distinct live players have distinct ids, and PidToPlayer inverts p->pid. */
  lemma LiveIdsDiffer(pd: PlayerData, p: Player, q: Player)
    requires pd.Valid() && p.pid == q.pid
    requires exists i :: 0 <= i < pd.pidmapsize && pd.pidmap[i].p == p
    requires exists i :: 0 <= i < pd.pidmapsize && pd.pidmap[i].p == q
    ensures p == q && 0 <= p.pid < pd.pidmapsize && pd.pidmap[p.pid].p == p
  {
  }
}
