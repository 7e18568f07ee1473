/**
 * The two fixed patterns of the company validator, `PI_REGEX` (Partita IVA)
 * and `CF_REGEX` (Codice Fiscale), with the anchors the rules add, matched
 * the way `Regex.IsMatch` does: a match may start at any position, `^`
 * holds only at the start and `$` (no multiline option) at the end of the
 * input or just before a final line feed.
 */
module TaxCodes {
  import opened Strings

  /** Number of digits in `PI_REGEX` = `[0-9]{11}`. */
  const PartitaIvaLength: nat := 11
  /** Number of characters `CF_REGEX` matches. */
  const CodiceFiscaleLength: nat := 16

  /** The class `[0-9LMNPQRSTUV]`: a digit or the letter replacing it in an omocodic code. */
  predicate IsCfDigit(c: char) {
    IsDigit(c) || c in "LMNPQRSTUV"
  }

  /**
   * The class at position `k` of `CF_REGEX`:
   * `[A-Za-z]{6}[0-9LMNPQRSTUV]{2}[A-Za-z]{1}[0-9LMNPQRSTUV]{2}[A-Za-z]{1}[0-9LMNPQRSTUV]{3}[A-Za-z]{1}`.
   */
  predicate CfClassAt(k: nat, c: char) {
    if k < 6 || k == 8 || k == 11 || k == 15 then IsLetter(c) else IsCfDigit(c)
  }

  /** `CF_REGEX` matches the whole of `code`. */
  predicate IsCodiceFiscale(code: string) {
    |code| == CodiceFiscaleLength && forall k | 0 <= k < |code| :: CfClassAt(k, code[k])
  }

  /** `CF_REGEX` matches the 16 characters starting at `p`. */
  predicate CfAt(s: string, p: nat)
    requires p + CodiceFiscaleLength <= |s|
  {
    IsCodiceFiscale(s[p..p + CodiceFiscaleLength])
  }

  /** `^[0-9]{11}`: eleven digits open the input. */
  predicate StartsWithElevenDigits(s: string) {
    |s| >= PartitaIvaLength && AllDigits(s[..PartitaIvaLength])
  }

  /** .NET `$` after `k` characters: the end of the input, or a line feed that ends it. */
  predicate EndAnchor(s: string, k: nat) {
    k == |s| || (k + 1 == |s| && s[k] == '\n')
  }

  /** `Regex.IsMatch(s, "^" + PI_REGEX + "$")`. */
  predicate MatchesPartitaIva(s: string): (b: bool)
    ensures b ==> (|s| == 11 || |s| == 12) && AllDigits(s[..PartitaIvaLength])
    ensures b && |s| == 12 ==> s[11] == '\n'
  {
    StartsWithElevenDigits(s) && EndAnchor(s, PartitaIvaLength)
  }

  /**
   * `Regex.IsMatch(s, "^" + PI_REGEX + "|" + CF_REGEX + "$")`. Alternation
   * binds loosest, so this is `^[0-9]{11}` or `CF_REGEX$`, the latter tried at
   * every start position.
   */
  predicate MatchesCodiceFiscale(s: string): (b: bool)
    ensures b ==> |s| >= PartitaIvaLength
    ensures MatchesPartitaIva(s) ==> b
  {
    || StartsWithElevenDigits(s)
    || exists p | 0 <= p <= |s| - CodiceFiscaleLength :: CfAt(s, p) && EndAnchor(s, p + CodiceFiscaleLength)
  }

  /**
   * The Partita IVA pattern accepts exactly eleven digits, optionally
   * followed by one line feed.
   */
  lemma PartitaIvaShape(s: string)
    ensures MatchesPartitaIva(s) <==>
      || (|s| == 11 && AllDigits(s))
      || (|s| == 12 && AllDigits(s[..11]) && s[11] == '\n')
  {
    if |s| == 11 {
      assert s[..11] == s;
    }
  }

  /** A Codice Fiscale code ends the input, possibly before a final line feed. */
  predicate EndsWithCodiceFiscale(s: string) {
    || (|s| >= 16 && CfAt(s, |s| - 16))
    || (|s| >= 17 && s[|s| - 1] == '\n' && CfAt(s, |s| - 17))
  }

  /**
   * The Codice Fiscale rule accepts any input that starts with eleven digits,
   * whatever follows, and any input that ends with a Codice Fiscale code,
   * whatever precedes it.
   */
  lemma CodiceFiscaleShape(s: string)
    ensures MatchesCodiceFiscale(s) <==> StartsWithElevenDigits(s) || EndsWithCodiceFiscale(s)
  {
    if EndsWithCodiceFiscale(s) && !StartsWithElevenDigits(s) {
      if |s| >= 16 && CfAt(s, |s| - 16) {
        assert EndAnchor(s, |s| - 16 + CodiceFiscaleLength);
      } else {
        assert EndAnchor(s, |s| - 17 + CodiceFiscaleLength);
      }
    }
  }

  /** A company-style tax code of eleven digits followed by letters passes the Codice Fiscale rule. */
  lemma DigitsWithTrailingTextPass()
    ensures MatchesCodiceFiscale("12345678901XYZ")
    ensures !MatchesPartitaIva("12345678901XYZ")
  {
    assert StartsWithElevenDigits("12345678901XYZ") by {
      assert "12345678901XYZ"[..11] == "12345678901";
    }
  }

  /** A Partita IVA followed by a line feed still passes, since `$` matches before it. */
  lemma PartitaIvaWithLineFeedPasses()
    ensures MatchesPartitaIva("12345678901\n")
    ensures !MatchesPartitaIva("123456789012")
  {
    assert "12345678901\n"[..11] == "12345678901";
    PartitaIvaShape("123456789012");
  }

  /** A personal Codice Fiscale passes, and so does any text that ends with one. */
  lemma PersonalCodePasses()
    ensures MatchesCodiceFiscale("RSSMRA80A01H501U")
    ensures MatchesCodiceFiscale("not a code: RSSMRA80A01H501U")
  {
    assert CfAt("RSSMRA80A01H501U", 0);
    var t := "not a code: RSSMRA80A01H501U";
    assert t[12..] == "RSSMRA80A01H501U";
    assert CfAt(t, 12);
  }
}
