/** The shell's list of background process ids (Project2/mainSetup.c):
    `background_pids[HISTORY_SIZE]` with `background_count` entries in use,
    appended to when a command ends in '&', shrunk by `fg %<pid>`, and
    consulted by `exit`. */
module ShellJobs {

  /** Capacity of `background_pids` (the program reuses HISTORY_SIZE) */
  const MAX_JOBS := 10

  /** The index of the first occurrence of `x` in `s` */
  function FirstIndex(s: seq<int>, x: int): (i: nat)
    requires x in s
    ensures i < |s| && s[i] == x
    ensures forall j :: 0 <= j < i ==> s[j] != x
  {
    if s[0] == x then 0 else 1 + FirstIndex(s[1..], x)
  }

  /** `s` with entry `i` overwritten by the last entry and the last slot dropped */
  function SwapRemoved(s: seq<int>, i: nat): (r: seq<int>)
    requires i < |s|
    ensures |r| == |s| - 1
    ensures r[..i] == s[..i]
    ensures i < |r| ==> r[i] == s[|s| - 1] && r[i + 1..] == s[i + 1..|s| - 1]
  {
    s[i := s[|s| - 1]][..|s| - 1]
  }

  /** Removing by swapping in the last entry takes away one copy of the
      removed value and keeps every other value with its multiplicity */
  lemma SwapRemovedMultiset(s: seq<int>, i: nat)
    requires i < |s|
    ensures multiset(SwapRemoved(s, i)) == multiset(s) - multiset{s[i]}
  {
    var last := |s| - 1;
    if i == last {
      assert s == SwapRemoved(s, i) + [s[i]];
    } else {
      var r := SwapRemoved(s, i);
      assert s == s[..i] + [s[i]] + s[i + 1..last] + [s[last]];
      assert r == s[..i] + [s[last]] + s[i + 1..last];
      assert multiset(s) == multiset(s[..i]) + multiset{s[i]} + multiset(s[i + 1..last]) + multiset{s[last]};
      assert multiset(r) == multiset(s[..i]) + multiset{s[last]} + multiset(s[i + 1..last]);
    }
  }

  class BackgroundJobs {
    var pids: array<int>
    var count: int

    ghost predicate Valid()
      reads this
    {
      pids.Length == MAX_JOBS && 0 <= count <= MAX_JOBS
    }

    /** The ids of the background processes still listed */
    function Running(): seq<int>
      reads this, pids
      requires Valid()
    {
      pids[..count]
    }

    constructor ()
      ensures Valid() && fresh(pids)
      ensures Running() == []
    {
      pids := new int[MAX_JOBS];
      count := 0;
    }

    /** `background_pids[background_count++] = pid` after starting a
        background command */
    method Add(pid: int)
      requires Valid() && count < MAX_JOBS
      modifies this, pids
      ensures Valid() && pids == old(pids)
      ensures Running() == old(Running()) + [pid]
    {
      pids[count] := pid;
      count := count + 1;
    }

    /** `fg %<pid>`: the first entry equal to `pid` is replaced by the last
        entry and the list shrinks by one; an unknown pid changes nothing */
    method BringToForeground(pid: int) returns (found: bool)
      requires Valid()
      modifies this, pids
      ensures Valid() && pids == old(pids)
      ensures found <==> pid in old(Running())
      ensures found ==> Running() == SwapRemoved(old(Running()), FirstIndex(old(Running()), pid))
      ensures found ==> multiset(Running()) == multiset(old(Running())) - multiset{pid}
      ensures !found ==> Running() == old(Running()) && count == old(count)
    {
      var i := 0;
      while i < count
        invariant 0 <= i <= count
        invariant forall j :: 0 <= j < i ==> pids[j] != pid
      {
        if pids[i] == pid {
          ghost var before := Running();
          assert FirstIndex(before, pid) == i;
          count := count - 1;
          pids[i] := pids[count];
          assert Running() == SwapRemoved(before, i);
          SwapRemovedMultiset(before, i);
          return true;
        }
        i := i + 1;
      }
      return false;
    }

    /** `exit` is refused exactly while background processes are listed */
    method HandleExit() returns (exits: bool)
      requires Valid()
      ensures exits <==> Running() == []
    {
      if count > 0 {
        return false;
      }
      return true;
    }
  }
}
