/**
  The circular debug-message list of hexa_leap_interface.js (DbgMsgList,
  DbgMsgListIdx, DbgMsgListSz): a fixed array of 20 slots that add_dbg_msg
  fills in place, overwriting the oldest message once full, and that
  print_dbg_msg renders in the order the messages were added.
*/
module DebugLog {

  /** DBG_LIST_SIZE (hexa_leap_interface.js:104). */
  const Capacity: nat := 20

  /** What JavaScript's string concatenation makes of a slot never written. */
  const Undefined: string := "undefined"

  const LineBreak: string := "<br />\n"

  /** The most recent min(|ms|, Capacity) messages, oldest first. */
  function Recent(ms: seq<string>): (r: seq<string>)
    ensures |r| == if |ms| < Capacity then |ms| else Capacity
  {
    if |ms| <= Capacity then ms else ms[|ms| - Capacity..]
  }

  /** Adding a message to the history adds it to the recent ones, dropping the oldest when full. */
  lemma RecentAppend(ms: seq<string>, m: string)
    ensures Recent(ms + [m]) == if |ms| < Capacity then ms + [m] else Recent(ms)[1..] + [m]
  {
    if |ms| >= Capacity {
      assert (ms + [m])[|ms| + 1 - Capacity..] == ms[|ms| - Capacity..][1..] + [m];
    }
  }

  /** The lines one after the other, each followed by a line break. */
  function Render(lines: seq<string>): string
  {
    if lines == [] then "" else Render(lines[..|lines| - 1]) + (lines[|lines| - 1] + LineBreak)
  }

  /** The slots read from `start`, wrapping around once. */
  function Rotate(slots: seq<string>, start: nat): (r: seq<string>)
    requires start <= |slots|
    ensures |r| == |slots|
  {
    slots[start..] + slots[..start]
  }

  /** Slot k of the rotated view is slot start + k, wrapping around. */
  lemma RotateAt(slots: seq<string>, start: nat, k: nat)
    requires start <= |slots| && k < |slots|
    ensures Rotate(slots, start)[k] == slots[if start + k < |slots| then start + k else start + k - |slots|]
  {
  }

  /** Rendering one more line appends that line and a line break. */
  lemma RenderSnoc(lines: seq<string>, k: nat)
    requires k < |lines|
    ensures Render(lines[..k + 1]) == Render(lines[..k]) + (lines[k] + LineBreak)
  {
    assert lines[..k + 1][..k] == lines[..k];
  }

  /**
    Overwriting the oldest slot and moving the start past it turns the rotated
    view into its tail followed by the new message.
  */
  lemma {:induction false} RotateAfterWrite(slots: seq<string>, start: nat, m: string)
    requires start < |slots|
    ensures Rotate(slots[start := m], if start + 1 == |slots| then 0 else start + 1)
         == Rotate(slots, start)[1..] + [m]
  {
    var next := if start + 1 == |slots| then 0 else start + 1;
    var lhs := Rotate(slots[start := m], next);
    var rhs := Rotate(slots, start)[1..] + [m];
    assert |lhs| == |rhs|;
    forall k | 0 <= k < |lhs|
      ensures lhs[k] == rhs[k]
    {
      if k < |slots| - 1 {
        assert rhs[k] == Rotate(slots, start)[k + 1];
      }
    }
  }

  /** The stored messages in the order print_dbg_msg reads them. */
  function WindowOf(slots: seq<string>, idx: nat, size: nat): seq<string>
    requires |slots| == Capacity && idx <= Capacity && size <= Capacity
  {
    if size < Capacity then slots[..size] else Rotate(slots, idx)
  }

  /**
    The list invariant over the slots, the index, the size and the history of
    messages: the index is the next slot to write; until the list fills up it
    equals the size, and the slots past the size were never written. Read in
    print order, the slots hold the most recent messages.
  */
  predicate Ring(slots: seq<string>, idx: nat, size: nat, messages: seq<string>)
  {
    && |slots| == Capacity
    && idx < Capacity
    && size <= Capacity
    && size == |Recent(messages)|
    && (size < Capacity ==> idx == size)
    && WindowOf(slots, idx, size) == Recent(messages)
    && (forall k :: size <= k < Capacity ==> slots[k] == Undefined)
  }

  /** The three assignments of add_dbg_msg (hexa_leap_interface.js:524-537) keep the invariant. */
  lemma RingAdd(slots: seq<string>, idx: nat, size: nat, messages: seq<string>, entry: string)
    requires Ring(slots, idx, size, messages)
    ensures var idx' := if idx + 1 >= Capacity then 0 else idx + 1;
      var size' := if idx + 1 > size then idx + 1 else size;
      Ring(slots[idx := entry], idx', size', messages + [entry])
  {
    if size < Capacity {
      RingAddFilling(slots, size, messages, entry);
    } else {
      RingAddFull(slots, idx, messages, entry);
    }
  }

  lemma RingAddFilling(slots: seq<string>, size: nat, messages: seq<string>, entry: string)
    requires size < Capacity && Ring(slots, size, size, messages)
    ensures Ring(slots[size := entry], if size + 1 == Capacity then 0 else size + 1, size + 1, messages + [entry])
  {
    var slots' := slots[size := entry];
    RecentAppend(messages, entry);
    assert messages == Recent(messages);
    assert slots'[..size + 1] == slots[..size] + [entry];
    if size + 1 == Capacity {
      assert Rotate(slots', 0) == slots';
    }
  }

  lemma RingAddFull(slots: seq<string>, idx: nat, messages: seq<string>, entry: string)
    requires Ring(slots, idx, Capacity, messages)
    ensures Ring(slots[idx := entry], if idx + 1 == Capacity then 0 else idx + 1, Capacity, messages + [entry])
  {
    RecentAppend(messages, entry);
    RotateAfterWrite(slots, idx, entry);
  }

  class MessageList {
    const list: array<string>  // DbgMsgList
    var idx: nat               // DbgMsgListIdx
    var size: nat              // DbgMsgListSz
    ghost var messages: seq<string>  // every message ever added, oldest first

    ghost function Window(): seq<string>
      reads this, list
      requires list.Length == Capacity && idx <= Capacity && size <= Capacity
    {
      WindowOf(list[..], idx, size)
    }

    ghost predicate Valid()
      reads this, list
    {
      list.Length == Capacity && Ring(list[..], idx, size, messages)
    }

    /** The list as the script declares it (hexa_leap_interface.js:108-116). */
    constructor ()
      ensures Valid() && messages == [] && fresh(list)
    {
      list := new string[Capacity](_ => Undefined);
      idx := 0;
      size := 0;
      messages := [];
    }

    /**
      add_dbg_msg (hexa_leap_interface.js:520-539). The time stamp Date.now()
      is the parameter `stamp`, already rendered as text.
    */
    method Add(stamp: string, msg: string)
      requires Valid()
      modifies this, list
      ensures Valid()
      ensures messages == old(messages) + [stamp + ": " + msg]
      ensures list[old(idx)] == stamp + ": " + msg
      ensures idx == if old(idx) + 1 == Capacity then 0 else old(idx) + 1
      ensures old(size) <= size <= Capacity
    {
      ghost var slots, idx0, size0, history := list[..], idx, size, messages;
      var entry := stamp + ": " + msg;
      RingAdd(slots, idx0, size0, history, entry);
      list[idx] := entry;
      idx := idx + 1;
      if idx > size {
        size := idx;
      }
      if idx >= Capacity {
        idx := 0;
      }
      messages := messages + [entry];
      assert list[..] == slots[idx0 := entry];
      assert idx == (if idx0 + 1 >= Capacity then 0 else idx0 + 1);
      assert size == (if idx0 + 1 > size0 then idx0 + 1 else size0);
    }

    /**
      print_dbg_msg (hexa_leap_interface.js:547-583), returning the text it puts
      on the page: the most recent messages, oldest first. With nothing added
      yet, its loop still emits slot 0, which is undefined.
    */
    method Print() returns (out: string)
      requires Valid()
      ensures messages != [] ==> out == Render(Recent(messages))
      ensures messages == [] ==> out == Render([Undefined])
    {
      ghost var slots := list[..];
      ghost var window := Window();
      out := "";
      var next := true;
      var i := idx;
      var j := 0;
      var sz := 0;
      while next
        invariant size == Capacity ==>
          && j == 0 && 0 <= sz <= Capacity && next == (sz < Capacity)
          && i == (if idx + sz < Capacity then idx + sz else idx + sz - Capacity)
          && out == Render(window[..sz])
        invariant size < Capacity ==>
          && sz == 0 && i == idx
          && 0 <= j <= (if size == 0 then 1 else size)
          && next == (j == 0 || j < size)
          && out == Render(slots[..j])
        decreases next, Capacity - sz, size - j
      {
        if size == Capacity {
          RotateAt(slots, idx, sz);
          RenderSnoc(window, sz);
          out := out + (list[i] + LineBreak);
          i := i + 1;
          sz := sz + 1;
          if i >= Capacity {
            i := 0;
          }
          if sz >= Capacity {
            next := false;
          }
        } else {
          RenderSnoc(slots, j);
          out := out + (list[j] + LineBreak);
          j := j + 1;
          if j >= size {
            next := false;
          }
        }
      }
      if size == Capacity {
        assert window[..sz] == window;
      } else if size == 0 {
        assert slots[..j] == [Undefined];
      } else {
        assert slots[..j] == window;
      }
    }
  }
}
