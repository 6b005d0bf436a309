/** The two seats of a game (src/ch/epfl/tchu/game/PlayerId.java). */
module PlayerIds {

  datatype PlayerId = Player1 | Player2 {

    /** The other player. */
    function Next(): (r: PlayerId)
      ensures r != this
      ensures this == Player1 <==> r == Player2
    {
      if this == Player1 then Player2 else Player1
    }
  }

  /** `PlayerId.ALL`, in declaration order. */
  const ALL: seq<PlayerId> := [Player1, Player2]

  /** `PlayerId.COUNT`. */
  const COUNT: nat := |ALL|

  /** `ALL` lists every player exactly once, and there are two of them. */
  lemma AllPlayers()
    ensures COUNT == 2
    ensures forall p: PlayerId :: p in ALL
    ensures ALL[0] != ALL[1]
  {
    forall p: PlayerId ensures p in ALL {
      assert ALL[if p == Player1 then 0 else 1] == p;
    }
  }

  /** Handing the turn on twice gives it back. */
  lemma NextInvolution(p: PlayerId)
    ensures p.Next().Next() == p
  {
  }
}
