/** The shell's command history (Project2/mainSetup.c): a ring of
    HISTORY_SIZE slots of MAX_LINE bytes and a running count of the
    commands ever added. `history` lists the last HISTORY_SIZE of them,
    numbered from 0, and `history -i <index>` copies one back into the
    input buffer. */
module ShellHistory {
  import opened Bytes

  const HISTORY_SIZE := 10

  /** What `strncpy(slot, command, MAX_LINE - 1)` followed by
      `slot[MAX_LINE - 1] = '\0'` keeps of `command`: its C string, cut to
      MAX_LINE - 1 bytes */
  function Stored(command: seq<byte>): (r: seq<byte>)
    ensures r <= CStr(command) && NUL !in r
    ensures |r| == Min(|CStr(command)|, MAX_LINE - 1)
  {
    var c := CStr(command);
    c[..Min(|c|, MAX_LINE - 1)]
  }

  /** A slot holding the C string `t`, NUL-filled to the end */
  function Padded(t: seq<byte>): (r: seq<byte>)
    requires |t| < MAX_LINE
    ensures |r| == MAX_LINE && r[..|t|] == t
    ensures forall j :: |t| <= j < MAX_LINE ==> r[j] == NUL
  {
    t + seq(MAX_LINE - |t|, _ => NUL)
  }

  lemma CStrOfPadded(t: seq<byte>)
    requires |t| < MAX_LINE && NUL !in t
    ensures CStr(Padded(t)) == t
  {
    assert Padded(t) == t + [NUL] + Padded(t)[|t| + 1..];
    CStrOfTerminated(t, Padded(t)[|t| + 1..]);
  }

  /** The number of the oldest command `print_history` lists: the window
      from it to the newest holds the last min(count, HISTORY_SIZE) commands */
  function WindowStart(count: int): (w: int)
    ensures w >= 0
    ensures count >= 0 ==> w <= count && count - w == Min(count, HISTORY_SIZE)
  {
    if count > HISTORY_SIZE then count - HISTORY_SIZE else 0
  }

  /** Which added command slot `j` holds once `count` commands were added:
      the latest one whose number is `j` modulo HISTORY_SIZE */
  function SlotOwner(count: int, j: int): (k: int)
    requires 0 <= j < HISTORY_SIZE && j < count
    ensures WindowStart(count) <= k < count && k % HISTORY_SIZE == j
  {
    var w := WindowStart(count);
    w + (j - w) % HISTORY_SIZE
  }

  /** Two commands less than HISTORY_SIZE apart never share a slot */
  lemma SlotsDiffer(a: int, b: int)
    requires 0 <= a < b < a + HISTORY_SIZE
    ensures a % HISTORY_SIZE != b % HISTORY_SIZE
  {
  }

  /** One line of the `history` listing */
  datatype HistoryEntry = HistoryEntry(number: int, command: seq<byte>)

  class History {
    const slots: array2<byte>
    var count: int
    /** Every command stored so far, oldest first, as kept in its slot */
    ghost var added: seq<seq<byte>>

    ghost predicate Valid()
      reads this, slots
    {
      && slots.Length0 == HISTORY_SIZE && slots.Length1 == MAX_LINE
      && count == |added|
      && (forall k :: 0 <= k < |added| ==> |added[k]| < MAX_LINE && NUL !in added[k])
      && (forall k :: WindowStart(count) <= k < count ==> Slot(k % HISTORY_SIZE) == Padded(added[k]))
    }

    /** The bytes of `history[j]` */
    function Slot(j: int): (r: seq<byte>)
      reads slots
      requires 0 <= j < slots.Length0
      ensures |r| == slots.Length1
      ensures forall i :: 0 <= i < slots.Length1 ==> r[i] == slots[j, i]
    {
      var a := slots;
      seq(a.Length1, i requires 0 <= i < a.Length1 reads a => a[j, i])
    }

    /** The zero-initialised globals */
    constructor ()
      ensures Valid() && fresh(slots)
      ensures count == 0 && added == []
    {
      slots := new byte[HISTORY_SIZE, MAX_LINE]((_, _) => NUL);
      count := 0;
      added := [];
    }

    /** add_to_history: the command goes into slot `count % HISTORY_SIZE`,
        cut to MAX_LINE - 1 bytes and NUL-terminated, and the count grows by
        one; the other slots keep their bytes. `command` is the input
        buffer, which strncpy reads up to a NUL or MAX_LINE - 1 bytes. */
    method AddToHistory(command: seq<byte>)
      requires Valid()
      requires NUL in command || |command| >= MAX_LINE - 1
      modifies this, slots
      ensures Valid()
      ensures count == old(count) + 1
      ensures added == old(added) + [Stored(command)]
      ensures Slot(old(count) % HISTORY_SIZE) == Padded(Stored(command))
      ensures forall j :: 0 <= j < HISTORY_SIZE && j != old(count) % HISTORY_SIZE ==> Slot(j) == old(Slot(j))
    {
      var slot := count % HISTORY_SIZE;
      CopyToSlot(slot, command);
      count := count + 1;
      added := added + [Stored(command)];
      forall k | WindowStart(count) <= k < count
        ensures Slot(k % HISTORY_SIZE) == Padded(added[k])
      {
        if k != count - 1 {
          SlotsDiffer(k, count - 1);
        }
      }
    }

    /** `strncpy(history[slot], command, MAX_LINE - 1)`, which copies up to the
        first NUL and fills the rest with NULs, then the explicit terminator
        `history[slot][MAX_LINE - 1] = '\0'` */
    method CopyToSlot(slot: int, command: seq<byte>)
      requires slots.Length0 == HISTORY_SIZE && slots.Length1 == MAX_LINE && 0 <= slot < HISTORY_SIZE
      requires NUL in command || |command| >= MAX_LINE - 1
      modifies slots
      ensures Slot(slot) == Padded(Stored(command))
      ensures forall j :: 0 <= j < HISTORY_SIZE && j != slot ==> Slot(j) == old(Slot(j))
    {
      ghost var stored := Stored(command);
      var i := 0;
      while i < MAX_LINE - 1 && i < |command| && command[i] != NUL
        invariant 0 <= i <= |stored|
        invariant forall j :: 0 <= j < i ==> slots[slot, j] == stored[j]
        invariant forall m, j :: 0 <= m < HISTORY_SIZE && m != slot && 0 <= j < MAX_LINE ==> slots[m, j] == old(slots[m, j])
      {
        slots[slot, i] := command[i];
        i := i + 1;
      }
      assert i == |stored|;
      while i < MAX_LINE - 1
        invariant |stored| <= i <= MAX_LINE - 1
        invariant forall j :: 0 <= j < |stored| ==> slots[slot, j] == stored[j]
        invariant forall j :: |stored| <= j < i ==> slots[slot, j] == NUL
        invariant forall m, j :: 0 <= m < HISTORY_SIZE && m != slot && 0 <= j < MAX_LINE ==> slots[m, j] == old(slots[m, j])
      {
        slots[slot, i] := NUL;
        i := i + 1;
      }
      slots[slot, MAX_LINE - 1] := NUL;
      assert Slot(slot) == Padded(stored);
      forall m | 0 <= m < HISTORY_SIZE && m != slot
        ensures Slot(m) == old(Slot(m))
      {
        assert forall j :: 0 <= j < MAX_LINE ==> Slot(m)[j] == old(Slot(m))[j];
      }
    }

    /** The C string held in slot `j` */
    function SlotString(j: int): seq<byte>
      reads slots
      requires 0 <= j < slots.Length0
    {
      CStr(Slot(j))
    }

    lemma SlotHoldsAdded(k: int)
      requires Valid() && WindowStart(count) <= k < count
      ensures SlotString(k % HISTORY_SIZE) == added[k]
    {
      CStrOfPadded(added[k]);
    }

    /** print_history: the last min(count, HISTORY_SIZE) commands, oldest
        first, numbered from 0 */
    method PrintHistory() returns (listing: seq<HistoryEntry>)
      requires Valid()
      ensures |listing| == Min(count, HISTORY_SIZE)
      ensures forall n :: 0 <= n < |listing| ==> listing[n] == HistoryEntry(n, added[WindowStart(count) + n])
      ensures count > 0 ==> listing[|listing| - 1].command == added[count - 1]
    {
      var start := if count > HISTORY_SIZE then count - HISTORY_SIZE else 0;
      listing := [];
      var i := start;
      while i < count
        invariant start <= i <= count && start == WindowStart(count)
        invariant |listing| == i - start
        invariant forall n :: 0 <= n < |listing| ==> listing[n] == HistoryEntry(n, added[start + n])
      {
        var entry := ListedEntry(start, i);
        listing := listing + [entry];
        i := i + 1;
      }
    }

    /** The line `print_history` prints for command `i`: its number in the
        listing and the contents of `history[i % HISTORY_SIZE]` */
    method ListedEntry(start: int, i: int) returns (entry: HistoryEntry)
      requires Valid() && start == WindowStart(count) <= i < count
      ensures entry == HistoryEntry(i - start, added[i])
    {
      SlotHoldsAdded(i);
      entry := HistoryEntry(i - start, SlotString(i % HISTORY_SIZE));
    }

    /** `strcpy(inputBuffer, history[j])` */
    method CopySlot(j: int, inputBuffer: array<byte>)
      requires Valid() && 0 <= j < HISTORY_SIZE && inputBuffer.Length >= MAX_LINE
      requires NUL in Slot(j)
      modifies inputBuffer
      ensures CStr(inputBuffer[..]) == SlotString(j)
      ensures inputBuffer[|SlotString(j)| + 1..] == old(inputBuffer[|SlotString(j)| + 1..])
    {
      ghost var s := SlotString(j);
      var i := 0;
      while slots[j, i] != NUL
        invariant 0 <= i <= |s|
        invariant inputBuffer[..i] == s[..i]
        invariant inputBuffer[|s| + 1..] == old(inputBuffer[|s| + 1..])
        decreases |s| - i
      {
        inputBuffer[i] := slots[j, i];
        i := i + 1;
      }
      inputBuffer[i] := NUL;
      assert inputBuffer[..i] == s;
      CStrOfTerminated(s, inputBuffer[i + 1..]);
      assert inputBuffer[..] == s + [NUL] + inputBuffer[i + 1..];
    }

    /** execute_history_command as written: `index` must name a slot in use,
        and it is the PHYSICAL slot `history[index]` that is copied into
        the input buffer (before setup reparses it); an invalid index
        leaves the buffer untouched */
    method ExecuteHistoryCommand(index: int, inputBuffer: array<byte>) returns (ok: bool)
      requires Valid() && inputBuffer.Length >= MAX_LINE
      modifies inputBuffer
      ensures ok <==> 0 <= index < HISTORY_SIZE && index < count
      ensures !ok ==> inputBuffer[..] == old(inputBuffer[..])
      ensures ok ==> CStr(inputBuffer[..]) == added[SlotOwner(count, index)]
    {
      if index < 0 || index >= HISTORY_SIZE || index >= count {
        return false;
      }
      var k := SlotOwner(count, index);
      SlotHoldsAdded(k);
      assert Slot(index)[|added[k]|] == NUL;
      CopySlot(index, inputBuffer);
      return true;
    }

    /** The history command with the number `history` lists in front of it:
        entry `number` of the listing lives in slot
        (WindowStart(count) + number) % HISTORY_SIZE */
    method ExecuteListedHistoryCommand(number: int, inputBuffer: array<byte>) returns (ok: bool)
      requires Valid() && inputBuffer.Length >= MAX_LINE
      modifies inputBuffer
      ensures ok <==> 0 <= number < HISTORY_SIZE && number < count
      ensures !ok ==> inputBuffer[..] == old(inputBuffer[..])
      ensures ok ==> CStr(inputBuffer[..]) == added[WindowStart(count) + number]
    {
      if number < 0 || number >= HISTORY_SIZE || number >= count {
        return false;
      }
      var start := if count > HISTORY_SIZE then count - HISTORY_SIZE else 0;
      var k := start + number;
      SlotHoldsAdded(k);
      assert Slot(k % HISTORY_SIZE)[|added[k]|] == NUL;
      CopySlot(k % HISTORY_SIZE, inputBuffer);
      return true;
    }
  }

  /** `history -i n` runs the command listed as number n exactly when fewer
      than HISTORY_SIZE commands were ever added or their count is a
      multiple of HISTORY_SIZE; otherwise it runs another one */
  lemma PhysicalSlotIsListedEntry(count: int, n: int)
    requires 0 <= n < HISTORY_SIZE && n < count
    ensures SlotOwner(count, n) == WindowStart(count) + n
      <==> count <= HISTORY_SIZE || count % HISTORY_SIZE == 0
  {
    if count > HISTORY_SIZE {
      var w := count - HISTORY_SIZE;
      assert w % HISTORY_SIZE == count % HISTORY_SIZE;
      var k := SlotOwner(count, n);
      if count % HISTORY_SIZE == 0 {
        assert (n - w) % HISTORY_SIZE == n;
      } else {
        assert k % HISTORY_SIZE == n;
        assert (w + n) % HISTORY_SIZE != n;
      }
    }
  }

  /** After eleven commands, `history` lists the second one as number 0, but
      `history -i 0` runs the eleventh */
  lemma ElevenCommands()
    ensures WindowStart(11) + 0 == 1
    ensures SlotOwner(11, 0) == 10
  {
  }
}
