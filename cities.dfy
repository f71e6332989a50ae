/**
 * The gazetteer: the fixed list of accepted city names, the normalisation the
 * server applies to every word it receives (`strip()` then `lower()`), and the
 * chaining-letter rule that skips a final soft sign.
 */
module Cities {
  import opened Wrappers

  /** The characters Python's `str.isspace()` accepts, which `strip()` removes. */
  predicate IsSpace(c: char) {
    || ('\t' <= c <= '\r')
    || ('\U{1C}' <= c <= '\U{1F}')
    || c == ' '
    || c == '\U{85}'
    || c == '\U{A0}'
    || c == '\U{1680}'
    || ('\U{2000}' <= c <= '\U{200A}')
    || c == '\U{2028}' || c == '\U{2029}'
    || c == '\U{202F}' || c == '\U{205F}'
    || c == '\U{3000}'
  }

  /** True when `s` has no leading and no trailing whitespace. */
  predicate Trimmed(s: string) {
    s == [] || (!IsSpace(s[0]) && !IsSpace(s[|s| - 1]))
  }

  /** Drops leading whitespace. */
  function TrimLeft(s: string): string {
    if s != [] && IsSpace(s[0]) then TrimLeft(s[1..]) else s
  }

  /** `TrimLeft` removes exactly the whitespace before the first other character. */
  lemma {:induction false} TrimLeftSpec(s: string)
    ensures var r := TrimLeft(s);
      && |r| <= |s| && r == s[|s| - |r|..]
      && (r == [] || !IsSpace(r[0]))
      && forall i :: 0 <= i < |s| - |r| ==> IsSpace(s[i])
  {
    if s != [] && IsSpace(s[0]) {
      var t, r := s[1..], TrimLeft(s[1..]);
      TrimLeftSpec(t);
      assert t[|t| - |r|..] == s[|s| - |r|..];
      forall i | 0 <= i < |s| - |r|
        ensures IsSpace(s[i])
      {
        if i > 0 {
          assert s[i] == t[i - 1];
        }
      }
    }
  }

  /** Drops trailing whitespace. */
  function TrimRight(s: string): string {
    if s != [] && IsSpace(s[|s| - 1]) then TrimRight(s[..|s| - 1]) else s
  }

  /** `TrimRight` removes exactly the whitespace after the last other character. */
  lemma {:induction false} TrimRightSpec(s: string)
    ensures var r := TrimRight(s);
      && |r| <= |s| && r == s[..|r|]
      && (r == [] || !IsSpace(r[|r| - 1]))
      && forall i :: |r| <= i < |s| ==> IsSpace(s[i])
  {
    if s != [] && IsSpace(s[|s| - 1]) {
      var t, r := s[..|s| - 1], TrimRight(s[..|s| - 1]);
      TrimRightSpec(t);
      assert t[..|r|] == s[..|r|];
      forall i | |r| <= i < |s|
        ensures IsSpace(s[i])
      {
        if i < |s| - 1 {
          assert s[i] == t[i];
        }
      }
    }
  }

  /** Python's `str.strip()` with no argument. */
  function Strip(s: string): string {
    TrimRight(TrimLeft(s))
  }

  /**
   * `Strip` leaves no whitespace at either end, never lengthens its input and
   * leaves an already trimmed word as it is.
   */
  lemma {:induction false} StripSpec(s: string)
    ensures var r := Strip(s);
      && Trimmed(r)
      && |r| <= |s|
      && (Trimmed(s) ==> r == s)
  {
    var t := TrimLeft(s);
    TrimLeftSpec(s);
    TrimRightSpec(t);
    var r := TrimRight(t);
    if r != [] {
      assert r[0] == t[0];
    }
    if Trimmed(s) && s != [] {
      assert t == s;
      assert r == s;
    }
  }

  /**
   * Python's `str.lower()` on one character, for the Latin capitals A-Z and the
   * Cyrillic capitals U+0400..U+042F (which include every Russian capital and Ё).
   */
  function LowerChar(c: char): (d: char)
    ensures IsSpace(d) == IsSpace(c)
    ensures !('A' <= d <= 'Z') && !('Ѐ' <= d <= 'Я')
    ensures !('A' <= c <= 'Z') && !('Ѐ' <= c <= 'Я') ==> d == c
    ensures 'A' <= c <= 'Z' ==> 'a' <= d <= 'z'
    ensures 'Ѐ' <= c <= 'Я' ==> 'а' <= d <= 'џ'
  {
    if 'A' <= c <= 'Z' then (c as int + 0x20) as char
    else if 'А' <= c <= 'Я' then (c as int + 0x20) as char
    else if 'Ѐ' <= c <= 'Џ' then (c as int + 0x50) as char
    else c
  }

  /** Python's `str.lower()`, character by character. */
  function Lower(s: string): string {
    if s == [] then [] else [LowerChar(s[0])] + Lower(s[1..])
  }

  /** `Lower` keeps the length and lower-cases each character in place. */
  lemma {:induction false} LowerSpec(s: string)
    ensures |Lower(s)| == |s|
    ensures forall i :: 0 <= i < |s| ==> Lower(s)[i] == LowerChar(s[i])
  {
    if s != [] {
      LowerSpec(s[1..]);
    }
  }

  /** True when lower-casing leaves `s` as it is. */
  predicate IsLower(s: string) {
    forall i :: 0 <= i < |s| ==> LowerChar(s[i]) == s[i]
  }

  /** `word.strip().lower()`, applied to every submitted move and city. */
  function Normalize(s: string): string {
    Lower(Strip(s))
  }

  /**
   * The normal form is trimmed and lower case, no longer than the input, and
   * a word already in normal form is its own normal form.
   */
  lemma NormalizeSpec(s: string)
    ensures var r := Normalize(s);
      && Trimmed(r) && IsLower(r)
      && |r| <= |s|
      && (Trimmed(s) && IsLower(s) ==> r == s)
  {
    var t := Strip(s);
    StripSpec(s);
    LowerSpec(t);
    var r := Lower(t);
    if r != [] {
      assert r[0] == LowerChar(t[0]) && r[|r| - 1] == LowerChar(t[|t| - 1]);
    }
    if Trimmed(s) && IsLower(s) {
      assert r == s;
    }
  }

  /** Normalising twice is normalising once. */
  lemma NormalizeIdempotent(s: string)
    ensures Normalize(Normalize(s)) == Normalize(s)
  {
    NormalizeSpec(s);
    NormalizeSpec(Normalize(s));
  }

  /** The cities the game accepts, all already lower case and trimmed. */
  const CityList: set<string> := {
    "москва", "архангельск", "казань", "новосибирск", "владивосток",
    "ростов", "сочи", "самара", "питер", "екатеринбург",
    "уфа", "омск", "нижний новгород", "волгоград", "краснодар"
  }

  /** The soft sign, skipped when it ends a word. */
  const SoftSign: char := 'ь'

  /**
   * The letter the next city must start with, taken from the normalised
   * word: there is none exactly when that word is empty (Python returns the
   * empty string, here `None`); otherwise it is the last letter, or the one
   * before a final soft sign, and it is the soft sign itself only when the
   * word offers no other choice.
   */
  function LastSignificantLetter(city: string): Option<char> {
    var n := Normalize(city);
    if n == [] then None
    else if n[|n| - 1] == SoftSign && |n| > 1 then Some(n[|n| - 2])
    else Some(n[|n| - 1])
  }

  /** The three promises above, stated on the normalised word. */
  lemma LastSignificantLetterSpec(city: string)
    ensures var r, n := LastSignificantLetter(city), Normalize(city);
      && (r.None? <==> n == [])
      && (r.Some? ==> r.value == n[|n| - 1] || (|n| > 1 && n[|n| - 1] == SoftSign && r.value == n[|n| - 2]))
      && (r.Some? && r.value == SoftSign ==> |n| == 1 || n[|n| - 2] == SoftSign)
      && (|n| > 1 && n[|n| - 1] == SoftSign ==> r == Some(n[|n| - 2]))
      && (n != [] && !(|n| > 1 && n[|n| - 1] == SoftSign) ==> r == Some(n[|n| - 1]))
  {
  }

  /** The chaining letter does not change when the word is normalised first. */
  lemma {:induction false} LastSignificantLetterOfNormalized(city: string)
    ensures LastSignificantLetter(Normalize(city)) == LastSignificantLetter(city)
  {
    NormalizeIdempotent(city);
  }

  /** "москва" is in the list and already normal, and chains with "а". */
  lemma MoscowNormal()
    ensures "москва" in CityList
    ensures Normalize("москва") == "москва"
    ensures LastSignificantLetter("москва") == Some('а')
  {
    var w := "москва";
    NormalizeSpec(w);
    assert Trimmed(w);
    assert IsLower(w);
    assert Normalize(w) == w;
  }

  /** No city on the list is empty, so its first letter exists. */
  lemma CityNonEmpty(c: string)
    requires c in CityList
    ensures |c| > 0
  {
  }
}
