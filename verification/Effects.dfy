/** The writes a pass owes, and how one batch of them runs. */
module Effects {
  /** ok: whether running it succeeds. */
  datatype Effect = Effect(name: string, ok: bool)

  /** A batch up to and including its first failure. */
  function Tried(effects: seq<Effect>): seq<Effect> {
    if effects == [] then [] else if !effects[0].ok then [effects[0]] else [effects[0]] + Tried(effects[1..])
  }

  method RunBatch(effects: seq<Effect>) returns (run: seq<Effect>)
    ensures run == Tried(effects)
  {
    run := [];
    for i := 0 to |effects|
      invariant run + Tried(effects[i..]) == Tried(effects)
    {
      assert effects[i..][1..] == effects[i + 1..];
      run := run + [effects[i]];
      if !effects[i].ok {
        break;
      }
    }
  }

  lemma {:induction false} TriedIn(effects: seq<Effect>, e: Effect)
    requires e in Tried(effects)
    ensures e in effects
  {
    if effects[0].ok && e != effects[0] { TriedIn(effects[1..], e); }
  }

  /** What runs is the batch from its start, every effect but the last succeeding, and all of it unless
      the last one run failed. */
  lemma {:induction false} TriedPrefix(effects: seq<Effect>)
    ensures Tried(effects) <= effects
    ensures forall i :: 0 <= i < |Tried(effects)| - 1 ==> effects[i].ok
    ensures |Tried(effects)| < |effects| ==> Tried(effects) != [] && !effects[|Tried(effects)| - 1].ok
  {
    if effects != [] && effects[0].ok {
      TriedPrefix(effects[1..]);
      assert effects == [effects[0]] + effects[1..];
    }
  }
}
