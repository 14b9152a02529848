/** The letter dispenser shared by both bakery servers: `c` runs through 'a' .. 'z' and starts again.
    Letters are character codes. */
module Letters {

  const CODE_A: int := 97
  const CODE_Z: int := 122

  /** The letter that the k-th customer (counting from 0) ought to get. */
  function Letter(k: nat): (letter: int)
    ensures CODE_A <= letter <= CODE_Z
  {
    CODE_A + k % 26
  }

  /** What `c++; if (c > 'z') c = 'a';` leaves in `c`. */
  function NextLetter(c: int): int {
    if c + 1 > CODE_Z then CODE_A else c + 1
  }

  lemma NextLetterAdvances(k: nat)
    ensures NextLetter(Letter(k)) == Letter(k + 1)
    ensures Letter(k) == CODE_Z <==> Letter(k + 1) == CODE_A
  {
    assert (k + 1) % 26 == if k % 26 == 25 then 0 else k % 26 + 1;
  }

  const ALPHABET: string := "abcdefghijklmnopqrstuvwxyz"

  /** The letters are the alphabet, over and over. */
  lemma LettersAreAlphabet(k: nat)
    ensures |ALPHABET| == 26 && Letter(k) == ALPHABET[k % 26] as int
  {
  }
}
