/** Wrapping arithmetic on 64 bit words. */
module Words {

  const WORD: nat := 0x1_0000_0000_0000_0000
  const MAX: nat := WORD - 1

  function Add(a: nat, b: nat): nat { (a + b) % WORD }
  function Subtract(a: nat, b: nat): nat { (a - b) % WORD }
  function Max(a: nat, b: nat): nat { if a < b then b else a }
  function Saturate(a: nat): nat { if a > MAX then MAX else a }

  lemma AddWraps(a: nat, b: nat)
    requires a < WORD && b < WORD
    ensures Add(a, b) == a + b || Add(a, b) == a + b - WORD
  {
  }

  lemma SubtractWraps(a: nat, b: nat)
    requires a < WORD && b < WORD
    ensures Subtract(a, b) == a - b || Subtract(a, b) == a - b + WORD
  {
  }

  lemma MultipleOfWord(x: int, y: int)
    requires x % WORD == 0 && (y == x || y == x + WORD || y == x - WORD)
    ensures y % WORD == 0
  {
  }

  lemma Residue(x: int, r: nat)
    requires r < WORD && (x - r) % WORD == 0
    ensures x % WORD == r
  {
  }

  lemma WordFollowsLive(live: nat, word: nat, size: nat)
    requires word == live % WORD && size < WORD
    ensures Add(word, size) == (live + size) % WORD
    ensures size <= live ==> Subtract(word, size) == (live - size) % WORD
  {
    AddWraps(word, size);
    MultipleOfWord(live - word, live + size - Add(word, size));
    Residue(live + size, Add(word, size));
    SubtractWraps(word, size);
    MultipleOfWord(live - word, live - size - Subtract(word, size));
    Residue(live - size, Subtract(word, size));
  }

  /** Subtracting from the word of an exact number wraps exactly when that word is smaller. */
  lemma SubtractIsExactIff(live: nat, size: nat)
    requires size < WORD
    ensures live < WORD ==> live % WORD == live
    ensures Subtract(live % WORD, size) == live % WORD - size <==> size <= live % WORD
    ensures live % WORD < size ==> Subtract(live % WORD, size) == live % WORD - size + WORD
  {
    SubtractWraps(live % WORD, size);
  }
}
