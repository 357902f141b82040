/** How the commands to come go: read off a sequence, and well once it is used up. */
module Luck {
  /** Whether the next command goes well, and the luck that is left after it. */
  predicate Next(luck: seq<bool>) {
    luck == [] || luck[0]
  }

  function Later(luck: seq<bool>): seq<bool> {
    if luck == [] then [] else luck[1..]
  }

  /** The next n commands go well. */
  predicate AllWell(luck: seq<bool>, n: nat) {
    n == 0 || (Next(luck) && AllWell(Later(luck), n - 1))
  }

  lemma {:induction false} NoBadLuck(n: nat)
    ensures AllWell([], n)
  {
    if n > 0 {
      NoBadLuck(n - 1);
    }
  }

  lemma {:induction false} TwoWell(luck: seq<bool>)
    ensures AllWell(luck, 2) <==> Next(luck) && Next(Later(luck))
  {
    assert AllWell(Later(luck), 1) <==> Next(Later(luck));
  }

  lemma {:induction false} ThreeWell(luck: seq<bool>)
    ensures AllWell(luck, 3) <==> Next(luck) && Next(Later(luck)) && Next(Later(Later(luck)))
  {
    TwoWell(Later(luck));
  }

  lemma {:induction false} FiveWell(luck: seq<bool>)
    ensures AllWell(luck, 5) <==>
      AllWell(luck, 2) && Next(Later(Later(luck))) && AllWell(Later(Later(Later(luck))), 2)
  {
    TwoWell(luck);
    assert AllWell(luck, 5) <==> Next(luck) && AllWell(Later(luck), 4);
    assert AllWell(Later(luck), 4) <==> Next(Later(luck)) && AllWell(Later(Later(luck)), 3);
  }
}
