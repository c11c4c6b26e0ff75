/** The solidified head an engine works with, told from its inputs alone. */
module Heads {
  import opened Types
  import opened EngineSpec

  /** The greatest head reported, whatever the engine made of it. */
  function GreatestHead(inputs: seq<Input>): Option<Height> {
    if inputs == [] then None
    else
      var (before, last) := (GreatestHead(inputs[..|inputs| - 1]), inputs[|inputs| - 1]);
      if last.Solidify? && Above(last.head, before) then Some(last.head) else before
  }

  /** Some head was reported, and it is the greatest of them. */
  ghost predicate IsGreatestHead(inputs: seq<Input>, head: Option<Height>) {
    && (head.None? <==> forall h: Height :: Solidify(h) !in inputs)
    && (head.Some? ==> Solidify(head.value) in inputs && forall h: Height :: Solidify(h) in inputs ==> h <= head.value)
  }

  lemma {:induction false} GreatestHeadExact(inputs: seq<Input>)
    ensures IsGreatestHead(inputs, GreatestHead(inputs))
  {
    if inputs != [] {
      var (before, last) := (inputs[..|inputs| - 1], inputs[|inputs| - 1]);
      GreatestHeadExact(before);
      assert inputs == before + [last];
      assert forall i: Input :: i in inputs <==> i in before || i == last;
    }
  }

  lemma AcceptKeepsHead(cfg: Config, s: State, b: Block)
    ensures Accept(cfg, s, b).0.solidifiedHead == s.solidifiedHead
  {
  }

  /** On every run the engine's head is the greatest head it was given: none exactly when it was given none. A
      head that advances by however little counts, one that does not changes nothing. */
  lemma {:induction false} HeadIsGreatest(cfg: Config, inputs: seq<Input>)
    ensures IsGreatestHead(inputs, After(cfg, inputs).solidifiedHead)
    ensures After(cfg, inputs).solidifiedHead == GreatestHead(inputs)
  {
    GreatestHeadExact(inputs);
    if inputs != [] {
      var (before, last) := (inputs[..|inputs| - 1], inputs[|inputs| - 1]);
      HeadIsGreatest(cfg, before);
      if last.Deliver? {
        AcceptKeepsHead(cfg, After(cfg, before), last.block);
      }
    }
  }
}
