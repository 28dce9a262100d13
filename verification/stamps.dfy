/** The stamps behind (node id, generation) pairs: a counter of which the id is the low 32-bit word and
    the generation the next one (fuse/fuse.c:381-390, 418-420). */
module Stamps {
  import opened NameHash
  import opened FuseNode

  function IdOf(stamp: nat): nat { stamp % WORD }

  function GenerationOf(stamp: nat): nat { (stamp / WORD) % WORD }

  /** Stamps handed out so far only grow, up to now, and none has the root's id. */
  ghost predicate StampsOk(issued: seq<nat>, now: nat) {
    && (forall i, j :: 0 <= i < j < |issued| ==> issued[i] < issued[j])
    && (forall i :: 0 <= i < |issued| ==> issued[i] <= now && IdOf(issued[i]) != ROOT_ID)
  }

  lemma ClockPair(epoch: nat, ctr: nat)
    requires ctr < WORD
    ensures IdOf(epoch * WORD + ctr) == ctr && GenerationOf(epoch * WORD + ctr) == epoch % WORD
  {}

  lemma StampAdded(issued: seq<nat>, before: nat, now: nat)
    requires StampsOk(issued, before) && before < now && IdOf(now) != ROOT_ID
    ensures StampsOk(issued + [now], now)
  {}

  const WRAP: nat := 0x1_0000_0000_0000_0000

  /** The pair is the low 64 bits of the stamp. */
  lemma PairIsLowWords(stamp: nat)
    ensures stamp % WRAP == GenerationOf(stamp) * WORD + IdOf(stamp)
  {}

  lemma SameLowWord(a: nat, b: nat)
    requires a < b
    ensures a % WRAP == b % WRAP <==> (b - a) % WRAP == 0
  {}

  /** Two pairs handed out are the same just when 2^64 stamps lie between them; none is the root's (1, 0). */
  lemma PairsAreUnique(issued: seq<nat>, now: nat, i: nat, j: nat)
    requires StampsOk(issued, now) && i < j < |issued|
    ensures IdOf(issued[i]) == IdOf(issued[j]) && GenerationOf(issued[i]) == GenerationOf(issued[j]) <==>
            (issued[j] - issued[i]) % WRAP == 0
    ensures issued[j] < WRAP ==>
              IdOf(issued[i]) != IdOf(issued[j]) || GenerationOf(issued[i]) != GenerationOf(issued[j])
    ensures IdOf(issued[i]) != ROOT_ID
  {
    PairIsLowWords(issued[i]);
    PairIsLowWords(issued[j]);
    SameLowWord(issued[i], issued[j]);
  }
}
