/**
 * The boss state machine (BossStateMachine.cs): a registry of named states, the
 * state currently running and its name. Change runs the Exit/Enter protocol,
 * Process forwards a frame tick, and the Tab debug action walks the registered
 * names and moves to the one after the current name, wrapping to the first.
 *
 * States are identified by an abstract StateId. The calls the machine makes on
 * them (Exit, Enter, Tick) and the line it logs are recorded as Events appended
 * to a trace, so that their order can be stated.
 *
 * The class's Model() is a Machine value; each method is proved to move its
 * Model() exactly as the pure transition function of the same name does, and
 * the lemmas state what those transitions guarantee.
 */
module StateMachine {
  import opened Options

  /** An opaque reference to a registered state object. */
  type StateId = nat

  /** What the machine does to its states and to the log, in order. */
  datatype Event =
    | Exited(state: StateId)
    | Entered(state: StateId)
    | Ticked(state: StateId, delta: real)
    | Logged(line: string)

  /** The state dictionary, in the order in which names were first registered. */
  type Registry = seq<(string, StateId)>

  /* —— the registry —— */

  /** The dictionary's Keys collection, in enumeration order. */
  function Keys(r: Registry): (ks: seq<string>)
    ensures |ks| == |r|
  {
    if |r| == 0 then [] else [r[0].0] + Keys(r[1..])
  }

  lemma {:induction false} KeysAt(r: Registry, i: int)
    requires 0 <= i < |r|
    ensures Keys(r)[i] == r[i].0
  {
    if i > 0 {
      KeysAt(r[1..], i - 1);
    }
  }

  /** No name is registered twice: the first name does not recur, and the rest is distinct. */
  predicate DistinctKeys(r: Registry) {
    |r| == 0 || (r[0].0 !in Keys(r[1..]) && DistinctKeys(r[1..]))
  }

  /** TryGetValue: the state registered under name, if any. */
  function Lookup(r: Registry, name: string): (o: Option<StateId>)
    ensures o.Some? <==> name in Keys(r)
  {
    if |r| == 0 then None
    else if r[0].0 == name then Some(r[0].1)
    else
      assert Keys(r) == [r[0].0] + Keys(r[1..]);
      Lookup(r[1..], name)
  }

  /** The dictionary indexer's set: overwrite an existing name in place, append a new one. */
  function Put(r: Registry, name: string, s: StateId): (r': Registry)
    ensures |r'| == if name in Keys(r) then |r| else |r| + 1
  {
    if |r| == 0 then [(name, s)]
    else if r[0].0 == name then [(name, s)] + r[1..]
    else
      assert Keys(r) == [r[0].0] + Keys(r[1..]);
      [r[0]] + Put(r[1..], name, s)
  }

  lemma KeysCons(r: Registry)
    requires |r| > 0
    ensures Keys(r) == [r[0].0] + Keys(r[1..])
  {
  }

  /** After Put, the name maps to the new state. */
  lemma {:induction false} PutLookupSame(r: Registry, name: string, s: StateId)
    ensures Lookup(Put(r, name, s), name) == Some(s)
  {
    if |r| > 0 && r[0].0 != name {
      PutLookupSame(r[1..], name, s);
      assert Put(r, name, s)[1..] == Put(r[1..], name, s);
    }
  }

  /** Put leaves every other name's entry as it was. */
  lemma {:induction false} PutLookupOther(r: Registry, name: string, s: StateId, k: string)
    requires k != name
    ensures Lookup(Put(r, name, s), k) == Lookup(r, k)
  {
    if |r| == 0 {
      assert Put(r, name, s)[1..] == [];
    } else if r[0].0 == name {
      assert Put(r, name, s)[1..] == r[1..];
    } else if r[0].0 != k {
      PutLookupOther(r[1..], name, s, k);
      assert Put(r, name, s)[1..] == Put(r[1..], name, s);
    }
  }

  /** Put keeps the name order: an existing name keeps its place, a new name goes last. */
  lemma {:induction false} PutKeys(r: Registry, name: string, s: StateId)
    ensures name in Keys(r) ==> Keys(Put(r, name, s)) == Keys(r)
    ensures name !in Keys(r) ==> Keys(Put(r, name, s)) == Keys(r) + [name]
  {
    if |r| > 0 {
      KeysCons(r);
      KeysCons(Put(r, name, s));
      if r[0].0 != name {
        PutKeys(r[1..], name, s);
        assert Put(r, name, s)[1..] == Put(r[1..], name, s);
      } else {
        assert Put(r, name, s)[1..] == r[1..];
      }
    }
  }

  /** Overwriting in place never creates a duplicate name. */
  lemma {:induction false} PutDistinct(r: Registry, name: string, s: StateId)
    requires DistinctKeys(r)
    ensures DistinctKeys(Put(r, name, s))
  {
    if |r| > 0 {
      KeysCons(r);
      if r[0].0 == name {
        assert Put(r, name, s)[1..] == r[1..];
      } else {
        PutDistinct(r[1..], name, s);
        PutKeys(r[1..], name, s);
        assert Put(r, name, s)[1..] == Put(r[1..], name, s);
      }
    }
  }

  /** Where names are distinct, the first occurrence of the i-th name is at i. */
  lemma {:induction false} IndexOfDistinct(r: Registry, i: int)
    requires DistinctKeys(r) && 0 <= i < |r|
    ensures IndexOf(Keys(r), r[i].0) == i
  {
    KeysCons(r);
    if i > 0 {
      IndexOfDistinct(r[1..], i - 1);
      assert Keys(r[1..])[i - 1] == r[i].0;
      assert Keys(r)[1..] == Keys(r[1..]);
    }
  }

  /* —— the key walk of the Tab action —— */

  /** Position of the first occurrence of k in ks, or -1. */
  function IndexOf(ks: seq<string>, k: string): (i: int)
    ensures -1 <= i < |ks|
    ensures i == -1 <==> k !in ks
    ensures 0 <= i ==> ks[i] == k
  {
    if |ks| == 0 then -1
    else if ks[0] == k then 0
    else
      var j := IndexOf(ks[1..], k);
      if j == -1 then -1 else j + 1
  }

  /** IndexOf finds the first occurrence. */
  lemma {:induction false} IndexOfFirst(ks: seq<string>, k: string, i: int)
    requires 0 <= i < |ks| && ks[i] == k
    requires forall j :: 0 <= j < i ==> ks[j] != k
    ensures IndexOf(ks, k) == i
  {
    if i > 0 {
      assert ks[0] != k;
      IndexOfFirst(ks[1..], k, i - 1);
    }
  }

  /** The name after tag in key order, the first name when tag is last, nothing when tag is not a key. */
  function NextKey(ks: seq<string>, tag: Option<string>): (n: Option<string>)
    ensures n.Some? <==> tag.Some? && tag.value in ks
    ensures n.Some? ==> n.value in ks
  {
    if tag.None? || IndexOf(ks, tag.value) == -1 then None
    else
      var i := IndexOf(ks, tag.value);
      if i + 1 < |ks| then Some(ks[i + 1]) else Some(ks[0])
  }

  /** The position after i in a cycle of k positions: the next one, or the first after the last. */
  function Succ(i: int, k: int): (j: int)
    requires 0 <= i < k
    ensures 0 <= j < k
  {
    if i + 1 < k then i + 1 else 0
  }

  /** The position n steps after i in a cycle of k positions. */
  function Advanced(i: int, k: int, n: nat): (j: int)
    requires 0 <= i < k
    ensures 0 <= j < k
    decreases n
  {
    if n == 0 then i else Advanced(Succ(i, k), k, n - 1)
  }

  lemma SuccMod(i: int, k: int)
    requires 0 <= i < k
    ensures Succ(i, k) == (i + 1) % k
  {
    if i + 1 < k {
      ModUnique(i + 1, k, 0, i + 1);
    } else {
      ModUnique(i + 1, k, 1, 0);
    }
  }

  /** n steps round a cycle of k positions from i land on (i + n) mod k. */
  lemma {:induction false} AdvancedMod(i: int, k: int, n: nat)
    requires 0 <= i < k
    ensures Advanced(i, k, n) == (i + n) % k
    decreases n
  {
    if n == 0 {
      ModUnique(i, k, 0, i);
    } else {
      SuccMod(i, k);
      AdvancedMod(Succ(i, k), k, n - 1);
      ModShift(i, n, k);
    }
  }

  /** A full round of k steps comes back to the start. */
  lemma AdvancedRound(i: int, k: int)
    requires 0 <= i < k
    ensures Advanced(i, k, k) == i
  {
    AdvancedMod(i, k, k);
    ModUnique(i + k, k, 1, i);
  }

  /** With distinct names, the name after the i-th key is the key at the next position, cyclically. */
  lemma NextKeyAt(r: Registry, i: int)
    requires DistinctKeys(r) && 0 <= i < |r|
    ensures NextKey(Keys(r), Some(Keys(r)[i])) == Some(Keys(r)[Succ(i, |r|)])
  {
    IndexOfDistinct(r, i);
  }

  /* —— the machine and its transitions —— */

  /**
   * The fields of BossStateMachine (_states, _current, _currentTag) together
   * with the trace of everything it has done.
   */
  datatype Machine = Machine(states: Registry, current: Option<StateId>, tag: Option<string>, trace: seq<Event>)

  const Initial: Machine := Machine([], None, None, [])

  /** The rich-text line Change prints. */
  function ChangeLine(name: string): string {
    "[color=yellow]>> State → " + name + "[/color]"
  }

  /** `_current?.Exit()`: one Exit call when a state is running, none otherwise. */
  function ExitCall(current: Option<StateId>): seq<Event> {
    if current.Some? then [Exited(current.value)] else []
  }

  function Registered(m: Machine, name: string, s: StateId): Machine {
    m.(states := Put(m.states, name, s))
  }

  function Changed(m: Machine, name: string): Machine {
    match Lookup(m.states, name)
    case None => m
    case Some(next) =>
      Machine(m.states, Some(next), Some(name), m.trace + ExitCall(m.current) + [Entered(next), Logged(ChangeLine(name))])
  }

  function Processed(m: Machine, delta: real): Machine {
    if m.current.Some? then m.(trace := m.trace + [Ticked(m.current.value, delta)]) else m
  }

  function Cycled(m: Machine): Machine {
    match NextKey(Keys(m.states), m.tag)
    case None => m
    case Some(k) => Changed(m, k)
  }

  /** The Tab action applied n times. */
  function CycledN(m: Machine, n: nat): Machine
    decreases n
  {
    if n == 0 then m else CycledN(Cycled(m), n - 1)
  }

  /**
   * What holds of every reachable machine: names are distinct, a state runs
   * exactly when a name is current, and the current name is registered.
   */
  predicate Inv(m: Machine) {
    && DistinctKeys(m.states)
    && (m.current.Some? <==> m.tag.Some?)
    && (m.tag.Some? ==> m.tag.value in Keys(m.states))
  }

  lemma InitialInv()
    ensures Inv(Initial) && Initial.tag.None? && Initial.trace == []
  {
  }

  /** Register: the name now maps to s, every other name is unaffected, nothing else changes. */
  lemma RegisterSpec(m: Machine, name: string, s: StateId, k: string)
    ensures Lookup(Registered(m, name, s).states, name) == Some(s)
    ensures k != name ==> Lookup(Registered(m, name, s).states, k) == Lookup(m.states, k)
    ensures Registered(m, name, s).current == m.current && Registered(m, name, s).tag == m.tag
    ensures Registered(m, name, s).trace == m.trace
  {
    PutLookupSame(m.states, name, s);
    if k != name {
      PutLookupOther(m.states, name, s, k);
    }
  }

  lemma RegisterInv(m: Machine, name: string, s: StateId)
    requires Inv(m)
    ensures Inv(Registered(m, name, s))
  {
    PutDistinct(m.states, name, s);
    PutKeys(m.states, name, s);
  }

  /** Change to an unregistered name: no Exit, no Enter, no log, nothing else. */
  lemma ChangeUnknown(m: Machine, name: string)
    requires name !in Keys(m.states)
    ensures Changed(m, name) == m
  {
  }

  /**
   * Change to a registered name: the previous state (if any) is exited, the
   * named state entered, then the line logged; the state and the name become current.
   */
  lemma ChangeKnown(m: Machine, name: string)
    requires name in Keys(m.states)
    ensures Changed(m, name).current == Lookup(m.states, name)
    ensures Changed(m, name).tag == Some(name)
    ensures Changed(m, name).states == m.states
    ensures m.current.Some? ==>
      Changed(m, name).trace == m.trace + [Exited(m.current.value), Entered(Lookup(m.states, name).value), Logged(ChangeLine(name))]
    ensures m.current.None? ==>
      Changed(m, name).trace == m.trace + [Entered(Lookup(m.states, name).value), Logged(ChangeLine(name))]
  {
  }

  /** Changing to the name already current exits and re-enters that same state. */
  lemma ChangeAgain(m: Machine, name: string)
    requires Inv(m) && m.tag == Some(name) && m.current == Lookup(m.states, name)
    ensures Changed(m, name).current == m.current && Changed(m, name).tag == m.tag
    ensures Changed(m, name).trace == m.trace + [Exited(m.current.value), Entered(m.current.value), Logged(ChangeLine(name))]
  {
  }

  lemma ChangeInv(m: Machine, name: string)
    requires Inv(m)
    ensures Inv(Changed(m, name))
  {
  }

  /** Process: exactly one Tick to the current state, or nothing when no state runs. */
  lemma ProcessSpec(m: Machine, delta: real)
    ensures Processed(m, delta).states == m.states
    ensures Processed(m, delta).current == m.current && Processed(m, delta).tag == m.tag
    ensures m.current.Some? ==> Processed(m, delta).trace == m.trace + [Ticked(m.current.value, delta)]
    ensures m.current.None? ==> Processed(m, delta) == m
    ensures TickCount(Processed(m, delta).trace) == TickCount(m.trace) + (if m.current.Some? then 1 else 0)
  {
    if m.current.Some? {
      TickCountAppend(m.trace, [Ticked(m.current.value, delta)]);
    }
  }

  lemma ProcessInv(m: Machine, delta: real)
    requires Inv(m)
    ensures Inv(Processed(m, delta))
  {
  }

  /** Number of Tick calls in a trace. */
  function TickCount(tr: seq<Event>): (n: nat)
    ensures n <= |tr|
  {
    if |tr| == 0 then 0 else (if tr[|tr| - 1].Ticked? then 1 else 0) + TickCount(tr[..|tr| - 1])
  }

  lemma {:induction false} TickCountAppend(a: seq<Event>, b: seq<Event>)
    ensures TickCount(a + b) == TickCount(a) + TickCount(b)
  {
    if |b| > 0 {
      TickCountAppend(a, b[..|b| - 1]);
      assert (a + b)[..|a + b| - 1] == a + b[..|b| - 1];
    } else {
      assert a + b == a;
    }
  }

  /** Tab with no current name, or a current name that is not a key, changes nothing. */
  lemma CycleWithoutTag(m: Machine)
    requires m.tag.None? || m.tag.value !in Keys(m.states)
    ensures Cycled(m) == m
  {
  }

  /**
   * Tab when the current name is the i-th key: a Change to the key after it,
   * or to the first key when it is the last.
   */
  lemma CycleStep(m: Machine, i: int)
    requires DistinctKeys(m.states) && 0 <= i < |m.states| && m.tag == Some(Keys(m.states)[i])
    ensures Cycled(m) == Changed(m, Keys(m.states)[Succ(i, |m.states|)])
    ensures Cycled(m).tag == Some(Keys(m.states)[Succ(i, |m.states|)])
    ensures Cycled(m).states == m.states
  {
    NextKeyAt(m.states, i);
  }

  /** The last key wraps to the first. */
  lemma CycleWrapsToFirst(m: Machine)
    requires DistinctKeys(m.states) && |m.states| > 0 && m.tag == Some(Keys(m.states)[|m.states| - 1])
    ensures Cycled(m).tag == Some(Keys(m.states)[0])
  {
    CycleStep(m, |m.states| - 1);
  }

  lemma CycleInv(m: Machine)
    requires Inv(m)
    ensures Inv(Cycled(m))
  {
    ChangeInv(m, if NextKey(Keys(m.states), m.tag).Some? then NextKey(Keys(m.states), m.tag).value else "");
  }

  /** Pressing Tab n times from the i-th key walks n positions round the keys. */
  lemma {:induction false} CycleWalk(m: Machine, i: int, n: nat)
    requires DistinctKeys(m.states) && 0 <= i < |m.states| && m.tag == Some(Keys(m.states)[i])
    ensures CycledN(m, n).states == m.states
    ensures CycledN(m, n).tag == Some(Keys(m.states)[Advanced(i, |m.states|, n)])
    decreases n
  {
    if n > 0 {
      CycleStep(m, i);
      CycleWalk(Cycled(m), Succ(i, |m.states|), n - 1);
    }
  }

  /** Pressing Tab n times from the i-th key makes the key at (i + n) mod |keys| current. */
  lemma CycleVisitsAll(m: Machine, i: int, n: nat)
    requires DistinctKeys(m.states) && 0 <= i < |m.states| && m.tag == Some(Keys(m.states)[i])
    ensures CycledN(m, n).states == m.states
    ensures CycledN(m, n).tag == Some(Keys(m.states)[(i + n) % |m.states|])
  {
    CycleWalk(m, i, n);
    AdvancedMod(i, |m.states|, n);
  }

  /** After as many presses as there are keys, the original name is current again. */
  lemma CycleReturns(m: Machine, i: int)
    requires DistinctKeys(m.states) && 0 <= i < |m.states| && m.tag == Some(Keys(m.states)[i])
    ensures CycledN(m, |m.states|).tag == m.tag
  {
    CycleWalk(m, i, |m.states|);
    AdvancedRound(i, |m.states|);
  }

  /** One step, then n - 1 more, lands where n steps do. */
  lemma ModShift(i: int, n: nat, k: int)
    requires 0 <= i && n > 0 && k > 0
    ensures ((i + 1) % k + (n - 1)) % k == (i + n) % k
  {
    var a := i + 1;
    var q, r := a / k, a % k;
    ModBounds(a, k);
    assert a == q * k + r;
    var b := a % k + (n - 1);
    var q', r' := b / k, b % k;
    ModBounds(b, k);
    assert b == q' * k + r';
    assert i + n == (q + q') * k + r' by {
      assert (q + q') * k == q * k + q' * k;
    }
    ModUnique(i + n, k, q + q', r');
  }

  /** Any number of Tab presses keeps the invariant. */
  lemma {:induction false} CycleNInv(m: Machine, n: nat)
    requires Inv(m)
    ensures Inv(CycledN(m, n))
    decreases n
  {
    if n > 0 {
      CycleInv(m);
      CycleNInv(Cycled(m), n - 1);
    }
  }

  lemma ModBounds(a: int, k: int)
    requires k > 0
    ensures 0 <= a % k < k
  {
  }

  /** Euclidean division has one remainder. */
  lemma ModUnique(a: int, k: int, q: int, r: int)
    requires k > 0 && 0 <= r < k && a == q * k + r
    ensures a % k == r
  {
    var q', r' := a / k, a % k;
    assert (q - q') * k == r' - r;
    MulSmall(q - q', k);
  }

  /** A multiple of k strictly between -k and k is zero. */
  lemma MulSmall(d: int, k: int)
    requires k > 0 && -k < d * k < k
    ensures d == 0
  {
    if d >= 1 {
      MulAtLeast(d, k);
    } else if d <= -1 {
      MulAtLeast(-d, k);
    }
  }

  lemma {:induction false} MulAtLeast(d: int, k: int)
    requires d >= 1 && k > 0
    ensures d * k >= k
  {
    if d > 1 {
      MulAtLeast(d - 1, k);
      assert d * k == (d - 1) * k + k;
    }
  }

  /* —— the class —— */

  class BossStateMachine {
    /** _states, in registration order. */
    var states: Registry
    /** _current: the running state, if any. */
    var current: Option<StateId>
    /** _currentTag: the name of the running state, if any. */
    var currentTag: Option<string>
    /** Exit/Enter/Tick calls and log lines, oldest first. */
    var trace: seq<Event>

    function Model(): Machine
      reads this
    {
      Machine(states, current, currentTag, trace)
    }

    constructor ()
      ensures Model() == Initial
    {
      states, current, currentTag, trace := [], None, None, [];
    }

    method Register(name: string, state: StateId)
      modifies this`states
      ensures Model() == Registered(old(Model()), name, state)
    {
      states := Put(states, name, state);
    }

    method Change(name: string)
      modifies this`current, this`currentTag, this`trace
      ensures Model() == Changed(old(Model()), name)
    {
      var next := Lookup(states, name);
      if next.None? {
        return;
      }
      if current.Some? {
        trace := trace + [Exited(current.value)];
      }
      current := next;
      trace := trace + [Entered(next.value)];
      currentTag := Some(name);
      trace := trace + [Logged(ChangeLine(name))];
    }

    /** _Process: forward the frame to the running state. */
    method Process(delta: real)
      modifies this`trace
      ensures Model() == Processed(old(Model()), delta)
    {
      if current.Some? {
        trace := trace + [Ticked(current.value, delta)];
      }
    }

    /** _UnhandledInput: on Tab, walk the keys to the current name and change to the next one. */
    method UnhandledInput(tabPressed: bool)
      modifies this`current, this`currentTag, this`trace
      ensures Model() == if tabPressed then Cycled(old(Model())) else old(Model())
    {
      if !tabPressed {
        return;
      }
      ghost var ks := Keys(states);
      var i := 0;
      while i < |states|
        invariant 0 <= i <= |states|
        invariant forall j :: 0 <= j < i ==> Some(ks[j]) != currentTag
        invariant Model() == old(Model())
      {
        KeysAt(states, i);
        if Some(states[i].0) == currentTag {
          IndexOfFirst(ks, states[i].0, i);
          var next;
          if i + 1 < |states| {
            next := states[i + 1].0;
            KeysAt(states, i + 1);
          } else {
            next := states[0].0;
            KeysAt(states, 0);
          }
          currentTag := Some(next);
          Change(next);
          return;
        }
        i := i + 1;
      }
    }
  }
}
