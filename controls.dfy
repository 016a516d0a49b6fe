/** The keyboard state: which of the four movement keys are held
    (`Input` in main.js). */
module Controls {

  /** The movement a key stands for. */
  datatype Key = Left | Right | Forward | Backward

  /** The key-code table: the arrow keys and W, A, S, D. */
  const KeyCodes: map<int, Key> :=
    map[37 := Left, 39 := Right, 38 := Forward, 40 := Backward,
        65 := Left, 68 := Right, 87 := Forward, 83 := Backward]

  /** Every key, all released: the initial state. */
  const Released: map<Key, bool> :=
    map[Left := false, Right := false, Forward := false, Backward := false]

  /** The state after the key with code `code` goes down (`down`) or up:
      an unmapped code leaves the state alone; a mapped one sets its key's
      entry to `down` and no other. */
  function KeyUpdate(states: map<Key, bool>, code: int, down: bool): (r: map<Key, bool>)
    ensures code !in KeyCodes ==> r == states
    ensures code in KeyCodes ==> KeyCodes[code] in r && r[KeyCodes[code]] == down
    ensures r.Keys == states.Keys + (if code in KeyCodes then {KeyCodes[code]} else {})
    ensures forall k :: k in states && (code !in KeyCodes || k != KeyCodes[code]) ==> r[k] == states[k]
  {
    if code !in KeyCodes then states
    else states[KeyCodes[code] := down]
  }

  /** Releasing a key undoes pressing it when it was not held before. */
  lemma ReleaseUndoesPress(states: map<Key, bool>, code: int)
    requires code in KeyCodes && KeyCodes[code] in states && !states[KeyCodes[code]]
    ensures KeyUpdate(KeyUpdate(states, code, true), code, false) == states
  {
    var r := KeyUpdate(KeyUpdate(states, code, true), code, false);
    assert r.Keys == states.Keys;
    forall k | k in states ensures r[k] == states[k] {
    }
  }

  /** Every key's state after a sequence of key events: the last event for
      one of that key's codes, or the starting state when there was none. */
  function Replay(states: map<Key, bool>, events: seq<(int, bool)>): (r: map<Key, bool>)
    ensures r.Keys >= states.Keys
  {
    if events == [] then states
    else KeyUpdate(Replay(states, events[..|events| - 1]), events[|events| - 1].0, events[|events| - 1].1)
  }

  /** Event `e` is for one of the codes of key `k`. */
  predicate EventFor(e: (int, bool), k: Key) {
    e.0 in KeyCodes && KeyCodes[e.0] == k
  }

  /** A key's state after a sequence of events is the value of the last
      event for one of its codes. */
  lemma {:induction false} ReplayLastEvent(states: map<Key, bool>, events: seq<(int, bool)>, k: Key, j: nat)
    requires j < |events| && EventFor(events[j], k)
    requires forall i :: j < i < |events| ==> !EventFor(events[i], k)
    ensures k in Replay(states, events) && Replay(states, events)[k] == events[j].1
  {
    if j < |events| - 1 {
      assert !EventFor(events[|events| - 1], k);
      ReplayLastEvent(states, events[..|events| - 1], k, j);
    }
  }

  /** A key that no event is for keeps its starting state. */
  lemma {:induction false} ReplayUntouched(states: map<Key, bool>, events: seq<(int, bool)>, k: Key)
    requires k in states
    requires forall i :: 0 <= i < |events| ==> !EventFor(events[i], k)
    ensures k in Replay(states, events) && Replay(states, events)[k] == states[k]
  {
    if events != [] {
      assert !EventFor(events[|events| - 1], k);
      ReplayUntouched(states, events[..|events| - 1], k);
    }
  }

  /** Events for codes off the table change nothing. */
  lemma {:induction false} UnmappedEventsIgnored(states: map<Key, bool>, events: seq<(int, bool)>)
    requires forall i :: 0 <= i < |events| ==> events[i].0 !in KeyCodes
    ensures Replay(states, events) == states
  {
    if events != [] {
      UnmappedEventsIgnored(states, events[..|events| - 1]);
    }
  }

  class Input {
    /** The key-code table. */
    const codes: map<int, Key>
    /** Which keys are held. */
    var states: map<Key, bool>

    ghost predicate Valid()
      reads this
    {
      codes == KeyCodes && states.Keys == Released.Keys
    }

    constructor ()
      ensures Valid() && states == Released
    {
      codes := KeyCodes;
      states := Released;
    }

    /** `onKey(val, e)` for an event with key code `keyCode`. */
    method OnKey(down: bool, keyCode: int)
      requires Valid()
      modifies this
      ensures Valid()
      ensures states == KeyUpdate(old(states), keyCode, down)
      ensures keyCode !in KeyCodes ==> states == old(states)
      ensures keyCode in KeyCodes ==> states == old(states)[KeyCodes[keyCode] := down]
    {
      if keyCode !in codes {
        return;
      }
      var stateKey := codes[keyCode];
      states := states[stateKey := down];
    }
  }
}
