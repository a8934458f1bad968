/**
 * `useState(initialValue)`: a process-wide store of state slots and a cursor
 * naming the slot the next declaration takes. The cursor starts at 0 and no
 * statement ever advances it, so every declaration lands on the same slot.
 * The setter stores its argument and then asks for a re-render; the model
 * counts those requests instead of running the re-render.
 */
module StateHooks {
  import opened VDom

  /** The module-level state: the slot map, the cursor, and the re-renders asked for so far. */
  datatype Store = Store(slots: map<int, Value>, cursor: int, rerenders: nat)

  /** The store when the module is loaded: no slot, cursor 0. */
  function Initial(): Store
  {
    Store(map[], 0, 0)
  }

  /** A declaration: takes the cursor's slot, filling it with `initial` only when the slot is empty. */
  function Declare(s: Store, initial: Value): (Store, int)
  {
    var key := s.cursor;
    if key in s.slots then (s, key) else (s.(slots := s.slots[key := initial]), key)
  }

  /** The getter: the slot's value, `undefined` when the slot was never filled. */
  function Read(s: Store, key: int): Value
  {
    if key in s.slots then s.slots[key] else Undefined
  }

  /** The setter: stores the value, then asks for one re-render. */
  function Write(s: Store, key: int, v: Value): Store
  {
    s.(slots := s.slots[key := v], rerenders := s.rerenders + 1)
  }

  /**
   * A declaration hands out the cursor's slot and leaves the cursor where it
   * was; an occupied slot keeps its value, an empty one now reads `initial`;
   * no other slot changes and no re-render is asked for.
   */
  lemma DeclareEffect(s: Store, initial: Value, other: int)
    ensures var (s', key) := Declare(s, initial);
            && key == s.cursor && s'.cursor == s.cursor && s'.rerenders == s.rerenders
            && Read(s', key) == (if key in s.slots then s.slots[key] else initial)
            && (other != key ==> Read(s', other) == Read(s, other))
  {
  }

  /** Reading a slot right after writing it gives the written value; other slots read as before. */
  lemma ReadAfterWrite(s: Store, key: int, v: Value, other: int)
    ensures Read(Write(s, key, v), key) == v
    ensures other != key ==> Read(Write(s, key, v), other) == Read(s, other)
    ensures Write(s, key, v).rerenders == s.rerenders + 1 && Write(s, key, v).cursor == s.cursor
  {
  }

  /**
   * Two declarations in a row get the same slot, and the second one's
   * initial value is ignored: the slot reads what the first left there.
   */
  lemma DeclarationsShareSlot(s: Store, a: Value, b: Value)
    ensures var (s1, k1) := Declare(s, a);
            var (s2, k2) := Declare(s1, b);
            && k1 == k2 == s.cursor
            && s2 == s1
            && Read(s2, k2) == Read(s1, k1)
  {
  }

  /**
   * From the initial store, a counter declared with 0, set to 1 and then
   * declared again (as a re-render does) reads 1: the second declaration does
   * not reset it.
   */
  lemma RedeclareKeepsWrite()
    ensures var (s1, k1) := Declare(Initial(), Num(0));
            var s2 := Write(s1, k1, Num(1));
            var (s3, k2) := Declare(s2, Num(0));
            && k2 == k1 == 0 && Read(s3, k2) == Num(1) && s3.rerenders == 1
  {
  }

  /** The live store: `stateStore`, `stateIndex` and the re-render requests. */
  class StateStore {
    var slots: map<int, Value>
    var stateIndex: int
    var rerenders: nat

    function State(): Store
      reads this
    {
      Store(slots, stateIndex, rerenders)
    }

    constructor ()
      ensures State() == Initial()
    {
      slots := map[];
      stateIndex := 0;
      rerenders := 0;
    }

    /** `useState(initialValue)`, returning the key its getter and setter close over. */
    method UseState(initialValue: Value) returns (key: int)
      modifies this
      ensures (State(), key) == Declare(old(State()), initialValue)
    {
      key := stateIndex;
      if key !in slots {
        slots := slots[key := initialValue];
      }
    }

    /** The getter returned for `key`. */
    function GetState(key: int): Value
      reads this
    {
      Read(State(), key)
    }

    /** The setter returned for `key`: store, then request a re-render. */
    method SetState(key: int, newValue: Value)
      modifies this
      ensures State() == Write(old(State()), key, newValue)
    {
      slots := slots[key := newValue];
      rerenders := rerenders + 1;
    }
  }

  /**
   * A fresh store driven through a component's life: declare, read, set,
   * re-declare on the re-render, read again.
   */
  method CounterLifecycle(initial: Value, next: Value) returns (first: Value, second: Value, key1: int, key2: int, rerenders: nat)
    ensures key1 == key2 == 0
    ensures first == initial && second == next
    ensures rerenders == 1
  {
    var store := new StateStore();
    key1 := store.UseState(initial);
    first := store.GetState(key1);
    store.SetState(key1, next);
    key2 := store.UseState(initial);
    second := store.GetState(key2);
    rerenders := store.rerenders;
  }
}
