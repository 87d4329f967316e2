/**
 * Room codes (`makeCode`): four characters drawn from an alphabet without the
 * easily confused letters I, L and O, redrawn until the code is not live.
 * The random draws are injected: each draw is the four alphabet positions that
 * `Math.floor(Math.random() * alphabet.length)` would produce.
 */
module RoomCodes {

  const Alphabet: string := "ABCDEFGHJKMNPQRSTUVWXYZ"

  /** A character a room code may contain: an upper-case letter other than I, L, O. */
  predicate IsCodeChar(c: char) {
    'A' <= c <= 'Z' && c != 'I' && c != 'L' && c != 'O'
  }

  /** The shape of every room code. */
  predicate IsRoomCode(s: string) {
    |s| == 4 && forall i :: 0 <= i < |s| ==> IsCodeChar(s[i])
  }

  /** The alphabet is exactly the set of code characters, each once. */
  lemma AlphabetIsCodeChars()
    ensures |Alphabet| == 23
    ensures forall i :: 0 <= i < |Alphabet| ==> IsCodeChar(Alphabet[i])
    ensures forall c :: IsCodeChar(c) ==> c in Alphabet
    ensures forall i, j :: 0 <= i < j < |Alphabet| ==> Alphabet[i] != Alphabet[j]
  {
  }

  /** One draw: four positions in the alphabet. */
  predicate IsDraw(d: seq<int>) {
    |d| == 4 && forall i :: 0 <= i < |d| ==> 0 <= d[i] < |Alphabet|
  }

  /** The code a draw spells (`Array.from(...).join('')`). */
  function Spell(d: seq<int>): (code: string)
    requires IsDraw(d)
    ensures IsRoomCode(code)
    ensures forall i :: 0 <= i < 4 ==> code[i] == Alphabet[d[i]]
  {
    AlphabetIsCodeChars();
    [Alphabet[d[0]], Alphabet[d[1]], Alphabet[d[2]], Alphabet[d[3]]]
  }

  /** `makeCode`: the `do ... while` loop keeps drawing until the spelled code is
      not among the existing ones; the result is the first such draw's code. */
  method MakeCode(existing: set<string>, draws: seq<seq<int>>) returns (code: string)
    requires forall i :: 0 <= i < |draws| ==> IsDraw(draws[i])
    requires exists i :: 0 <= i < |draws| && Spell(draws[i]) !in existing
    ensures IsRoomCode(code) && code !in existing
    ensures exists k :: (0 <= k < |draws| && code == Spell(draws[k])
                         && forall j :: 0 <= j < k ==> Spell(draws[j]) in existing)
  {
    var i := 0;
    code := Spell(draws[0]);
    while code in existing
      invariant 0 <= i < |draws| && code == Spell(draws[i])
      invariant forall j :: 0 <= j < i ==> Spell(draws[j]) in existing
      invariant exists k :: i <= k < |draws| && Spell(draws[k]) !in existing
      decreases |draws| - i
    {
      i := i + 1;
      code := Spell(draws[i]);
    }
  }
}
