/**
 * The string normalisation the server applies to display names and to free-text
 * answers: JavaScript's `String.prototype.trim` followed by `toLowerCase`.
 * Lower-casing is modelled for ASCII letters only.
 */
module Text {

  /** The characters `trim` removes: ECMAScript WhiteSpace and LineTerminator. */
  predicate IsSpace(c: char) {
    || c == '\t' || c == '\n' || c == '\U{000B}' || c == '\U{000C}' || c == '\r' || c == ' '
    || c == '\U{00A0}' || c == '\U{1680}' || ('\U{2000}' <= c <= '\U{200A}')
    || c == '\U{2028}' || c == '\U{2029}' || c == '\U{202F}' || c == '\U{205F}'
    || c == '\U{3000}' || c == '\U{FEFF}'
  }

  /** `trimStart`: drops every leading space. */
  function TrimStart(s: string): (r: string)
    ensures |r| <= |s|
  {
    if s != [] && IsSpace(s[0]) then TrimStart(s[1..]) else s
  }

  /** What `trimStart` leaves: a suffix of the input that does not start with a
      space, every character it drops being a space. */
  lemma {:induction false} TrimStartShape(s: string)
    ensures TrimStart(s) == s[|s| - |TrimStart(s)|..]
    ensures forall j :: 0 <= j < |s| - |TrimStart(s)| ==> IsSpace(s[j])
    ensures TrimStart(s) == [] || !IsSpace(TrimStart(s)[0])
  {
    if s != [] && IsSpace(s[0]) {
      TrimStartShape(s[1..]);
      forall j | 0 <= j < |s| - |TrimStart(s)| ensures IsSpace(s[j]) {
        if j > 0 {
          assert s[j] == s[1..][j - 1];
        }
      }
    }
  }

  /** `trimEnd`: drops every trailing space. */
  function TrimEnd(s: string): (r: string)
    ensures |r| <= |s|
  {
    if s != [] && IsSpace(s[|s| - 1]) then TrimEnd(s[..|s| - 1]) else s
  }

  /** What `trimEnd` leaves: a prefix of the input that does not end with a
      space, every character it drops being a space. */
  lemma {:induction false} TrimEndShape(s: string)
    ensures TrimEnd(s) == s[..|TrimEnd(s)|]
    ensures forall j :: |TrimEnd(s)| <= j < |s| ==> IsSpace(s[j])
    ensures TrimEnd(s) == [] || !IsSpace(TrimEnd(s)[|TrimEnd(s)| - 1])
  {
    if s != [] && IsSpace(s[|s| - 1]) {
      TrimEndShape(s[..|s| - 1]);
      forall j | |TrimEnd(s)| <= j < |s| ensures IsSpace(s[j]) {
        if j < |s| - 1 {
          assert s[j] == s[..|s| - 1][j];
        }
      }
    }
  }

  /** The number of leading spaces `trimStart` drops. */
  function Leading(s: string): (n: nat)
    ensures n <= |s|
  {
    |s| - |TrimStart(s)|
  }

  /** `trim`: `trimStart` then `trimEnd`. */
  function Trim(s: string): string {
    TrimEnd(TrimStart(s))
  }

  /** What `trim` leaves: the slice of the input after its leading spaces, with no
      space at either end, every character it drops being a space. */
  lemma TrimShape(s: string)
    ensures Leading(s) + |Trim(s)| <= |s| && Trim(s) == s[Leading(s)..Leading(s) + |Trim(s)|]
    ensures forall j :: 0 <= j < Leading(s) ==> IsSpace(s[j])
    ensures forall j :: Leading(s) + |Trim(s)| <= j < |s| ==> IsSpace(s[j])
    ensures Trim(s) == [] || (!IsSpace(Trim(s)[0]) && !IsSpace(Trim(s)[|Trim(s)| - 1]))
  {
    TrimStartShape(s);
    TrimEndShape(TrimStart(s));
    TrimSlice(s, TrimStart(s), Trim(s));
  }

  lemma TrimSlice(s: string, t: string, r: string)
    requires |t| <= |s| && t == s[|s| - |t|..]
    requires |r| <= |t| && r == t[..|r|]
    requires forall j :: |r| <= j < |t| ==> IsSpace(t[j])
    ensures |s| - |t| + |r| <= |s| && r == s[|s| - |t|..|s| - |t| + |r|]
    ensures forall j :: |s| - |t| + |r| <= j < |s| ==> IsSpace(s[j])
  {
    var i := |s| - |t|;
    forall j | i + |r| <= j < |s| ensures IsSpace(s[j]) {
      assert s[j] == t[j - i];
    }
  }

  /** ASCII `toLowerCase` of one character. */
  function LowerChar(c: char): char {
    if 'A' <= c <= 'Z' then (c as int + 32) as char else c
  }

  /** ASCII `toLowerCase`: the same length, lower-cased character by character. */
  function Lower(s: string): (r: string)
    ensures |r| == |s|
    ensures forall i :: 0 <= i < |s| ==> r[i] == LowerChar(s[i])
  {
    if s == [] then [] else [LowerChar(s[0])] + Lower(s[1..])
  }

  /** The normal form `s.trim().toLowerCase()` used for name claims and text answers. */
  function Key(s: string): string {
    Lower(Trim(s))
  }

  /** Neither `trim` nor the key lengthens its input, and lower-casing keeps the
      trimmed length. */
  lemma KeyLength(s: string)
    ensures |Trim(s)| <= |s| && |Key(s)| == |Trim(s)|
  {
  }

  /** A string without spaces at its ends is its own trim. */
  lemma TrimOfTrimmed(s: string)
    requires s == [] || (!IsSpace(s[0]) && !IsSpace(s[|s| - 1]))
    ensures Trim(s) == s
  {
  }

  /** Trimming is idempotent. */
  lemma TrimIdempotent(s: string)
    ensures Trim(Trim(s)) == Trim(s)
  {
    TrimShape(s);
    TrimOfTrimmed(Trim(s));
  }

  /** The key of a trimmed name is the key of the name (the server re-derives the
      key of a stored, already trimmed, name when a player leaves). */
  lemma KeyOfTrim(s: string)
    ensures Key(Trim(s)) == Key(s)
  {
    TrimIdempotent(s);
  }

  /** Lower-casing neither creates nor removes spaces. */
  lemma LowerCharSpace(c: char)
    ensures IsSpace(LowerChar(c)) <==> IsSpace(c)
  {
  }

  lemma {:induction false} TrimStartLower(s: string)
    ensures TrimStart(Lower(s)) == Lower(TrimStart(s))
  {
    if s != [] {
      LowerCharSpace(s[0]);
      assert Lower(s)[1..] == Lower(s[1..]);
      if IsSpace(s[0]) {
        TrimStartLower(s[1..]);
      }
    }
  }

  lemma {:induction false} TrimEndLower(s: string)
    ensures TrimEnd(Lower(s)) == Lower(TrimEnd(s))
  {
    if s != [] {
      LowerCharSpace(s[|s| - 1]);
      assert Lower(s)[..|s| - 1] == Lower(s[..|s| - 1]);
      if IsSpace(s[|s| - 1]) {
        TrimEndLower(s[..|s| - 1]);
      }
    }
  }

  /** Keys ignore ASCII case: a name and its lower-cased form claim the same slot. */
  lemma KeyIgnoresCase(s: string)
    ensures Key(Lower(s)) == Key(s)
  {
    TrimStartLower(s);
    TrimEndLower(TrimStart(s));
    assert Trim(Lower(s)) == Lower(Trim(s));
    LowerIdempotent(Trim(s));
  }

  /** Lower-casing is idempotent. */
  lemma LowerIdempotent(s: string)
    ensures Lower(Lower(s)) == Lower(s)
  {
    var l := Lower(s);
    assert forall i :: 0 <= i < |s| ==> Lower(l)[i] == l[i];
  }

  /** Keys ignore surrounding spaces. */
  lemma KeyIgnoresPadding(s: string, c: char)
    requires IsSpace(c)
    ensures Key([c] + s) == Key(s)
    ensures Key(s + [c]) == Key(s)
  {
    assert ([c] + s)[1..] == s;
    assert (s + [c])[..|s|] == s;
    TrimStartSnoc(s, c);
  }

  lemma {:induction false} TrimStartSnoc(s: string, c: char)
    requires IsSpace(c)
    ensures TrimEnd(TrimStart(s + [c])) == TrimEnd(TrimStart(s))
  {
    if s == [] {
      assert [c][1..] == [];
    } else if IsSpace(s[0]) {
      assert (s + [c])[1..] == s[1..] + [c];
      TrimStartSnoc(s[1..], c);
    } else {
      assert (s + [c])[..|s|] == s;
    }
  }

  /** "Ana" and "ana " claim the same, non-empty key. */
  lemma AnaKey()
    ensures Key("ana ") == Key("Ana") && Key("Ana") != ""
  {
    assert "ana " == "ana" + [' '];
    KeyIgnoresPadding("ana", ' ');
    assert Lower("Ana") == "ana";
    KeyIgnoresCase("Ana");
    TrimOfTrimmed("Ana");
  }
}
