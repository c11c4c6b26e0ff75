/** The broadcast hub: one input queue, many receivers, each attached at its own point. */
module Hub {
  import opened Types

  /** Everything broadcast, where in it each receiver was attached, and what each was given. */
  datatype HubState = HubState(history: seq<Output>, joined: seq<nat>, receivers: seq<seq<Output>>) {
    /** Every receiver has exactly what was broadcast since it subscribed. */
    ghost predicate Valid() {
      && |joined| == |receivers|
      && forall i :: 0 <= i < |receivers| ==> HasTail(i)
    }

    ghost predicate HasTail(i: nat)
      requires i < |joined| && i < |receivers|
    {
      joined[i] <= |history| && receivers[i] == history[joined[i]..]
    }
  }

  /** A new receiver hears nothing of the past. */
  function Attach(h: HubState): HubState {
    HubState(h.history, h.joined + [|h.history|], h.receivers + [[]])
  }

  /** Send to every receiver; with none attached the event is dropped. */
  function Carry(h: HubState, o: Output): HubState {
    var rs := h.receivers;
    HubState(h.history + [o], h.joined, seq(|rs|, i requires 0 <= i < |rs| => rs[i] + [o]))
  }

  function CarryAll(h: HubState, outs: seq<Output>): HubState {
    if outs == [] then h else Carry(CarryAll(h, outs[..|outs| - 1]), outs[|outs| - 1])
  }

  lemma AttachKeeps(h: HubState)
    requires h.Valid()
    ensures Attach(h).Valid()
  {
    var h' := Attach(h);
    forall i | 0 <= i < |h'.receivers| ensures h'.HasTail(i) {
      assert i < |h.receivers| ==> h.HasTail(i);
    }
  }

  lemma CarryKeeps(h: HubState, o: Output)
    requires h.Valid()
    ensures Carry(h, o).Valid()
  {
    var h' := Carry(h, o);
    forall i | 0 <= i < |h'.receivers| ensures h'.HasTail(i) {
      assert h.HasTail(i);
      assert (h.history + [o])[h.joined[i]..] == h.history[h.joined[i]..] + [o];
    }
  }

  /** Pumping a queue gives every receiver the whole queue, in order, whenever it attached. */
  lemma {:induction false} CarryAllExact(h: HubState, outs: seq<Output>)
    requires h.Valid()
    ensures var h' := CarryAll(h, outs);
      && h'.Valid() && h'.history == h.history + outs && h'.joined == h.joined
      && forall i :: 0 <= i < |h.receivers| ==> h'.receivers[i] == h.receivers[i] + outs
  {
    if outs != [] {
      var (before, last) := (outs[..|outs| - 1], outs[|outs| - 1]);
      CarryAllExact(h, before);
      CarryKeeps(CarryAll(h, before), last);
      assert before + [last] == outs;
    }
  }

  class BroadcastHub {
    var receivers: seq<seq<Output>>
    ghost var history: seq<Output>
    ghost var joined: seq<nat>

    ghost function View(): HubState
      reads this
    {
      HubState(history, joined, receivers)
    }

    constructor ()
      ensures View() == HubState([], [], []) && View().Valid()
    {
      receivers, history, joined := [], [], [];
    }

    method Subscribe() returns (id: nat)
      requires View().Valid()
      modifies this
      ensures View() == Attach(old(View())) && View().Valid()
      ensures id == |old(receivers)| && receivers[id] == []
    {
      AttachKeeps(View());
      id := |receivers|;
      receivers := receivers + [[]];
      joined := joined + [|history|];
    }

    method Broadcast(output: Output)
      requires View().Valid()
      modifies this
      ensures View() == Carry(old(View()), output) && View().Valid()
    {
      CarryKeeps(View(), output);
      var rs := receivers;
      receivers := seq(|rs|, i requires 0 <= i < |rs| => rs[i] + [output]);
      history := history + [output];
    }

    /** Move the whole input queue to the receivers, in order. */
    method PumpFrom(input: seq<Output>)
      requires View().Valid()
      modifies this
      ensures View() == CarryAll(old(View()), input) && View().Valid()
    {
      for k := 0 to |input|
        invariant View() == CarryAll(old(View()), input[..k]) && View().Valid()
      {
        assert input[..k + 1][..k] == input[..k];
        Broadcast(input[k]);
      }
      assert input[..|input|] == input;
    }
  }
}
