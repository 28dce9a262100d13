/** The hash of a (parent id, name) pair (fuse/fuse.c:308-318), in 32-bit unsigned arithmetic. */
module NameHash {
  const TABLE_SIZE: nat := 14057
  const WORD: nat := 0x1_0000_0000

  /** A C `char` promoted to `unsigned int`: bytes above 127 are sign-extended. */
  function Promote(c: char): (b: nat)
    ensures b < WORD
  {
    (if c as int < 128 then c as int else WORD + c as int - 256) % WORD
  }

  function Fold(h: nat, s: string): nat
    decreases |s|
  {
    if s == [] then h else Fold((31 * h + Promote(s[0])) % WORD, s[1..])
  }

  function HashOf(parent: nat, name: string): (h: nat)
    ensures h < TABLE_SIZE
  {
    ((if name == [] then 0 else Fold(Promote(name[0]), name[1..])) + parent) % TABLE_SIZE
  }

  /** `(hash << 5) - hash + c` in 32 bits is multiplication by 31. */
  lemma ShiftIsTimes31(hash: nat, c: nat)
    requires hash < WORD && c < WORD
    ensures ((hash * 32) % WORD + WORD - hash + c) % WORD == (31 * hash + c) % WORD
  {}

  /** Hashes of a short name, and of one that begins with a byte above 127. */
  lemma HashExamples()
    ensures HashOf(1, "") == 1 && HashOf(1, "a") == 98 && HashOf(1, "ab") == 3106
    ensures HashOf(2, [233 as char, 'a']) == 4959
  {
    assert "ab"[1..] == "b" && "b"[1..] == "" && Fold(97, "b") == 31 * 97 + 98;
    var s := [233 as char, 'a'];
    assert s[1..] == ['a'] && ['a'][1..] == [];
    assert Fold(Promote(s[0]), ['a']) == (31 * (WORD - 23) + 97) % WORD;
  }

  method ComputeHash(parent: nat, name: string) returns (h: nat)
    requires forall i :: 0 <= i < |name| ==> 0 < name[i] as int < 256
    ensures h == HashOf(parent, name)
  {
    var hash := if name == [] then 0 else Promote(name[0]);
    if hash != 0 {
      var i := 1;
      while i < |name|
        invariant 1 <= i <= |name|
        invariant 0 <= hash < WORD
        invariant Fold(hash, name[i..]) == Fold(Promote(name[0]), name[1..])
      {
        ShiftIsTimes31(hash, Promote(name[i]));
        hash := ((hash * 32) % WORD + WORD - hash + Promote(name[i])) % WORD;
        i := i + 1;
      }
    }
    h := (hash + parent) % TABLE_SIZE;
  }
}
