/**
 Account identifiers: sixteen symbols of a small alphabet. People write them with separators
 and in either case; every service looks them up in normal form.
*/
module AccountIds {
  import opened Wrappers

  const ALPHABET := "CDEFHJKMNPRTVWXY2345689"
  const LENGTH := 16

  predicate Symbol(c: char)
  {
    c in ALPHABET
  }

  predicate AllSymbols(s: string)
  {
    forall k :: 0 <= k < |s| ==> Symbol(s[k])
  }

  predicate WellFormed(s: string)
  {
    |s| == LENGTH && AllSymbols(s)
  }

  type AccountId = s: string | WellFormed(s) witness "CCCCCCCCCCCCCCCC"

  function Stripped(s: string): string
  {
    if s == "" then "" else (if s[0] == ' ' || s[0] == '-' then "" else [s[0]]) + Stripped(s[1..])
  }

  /**
   The upper-case form of a character. Outside ASCII only the ff ligature turns into letters of
   the alphabet; all others stay out of it, so they are left as they are.
  */
  function UpperChar(c: char): string
  {
    if 'a' <= c <= 'z' then [c - 'a' + 'A']
    else if c == '\U{FB00}' then "FF"
    else [c]
  }

  function Upper(s: string): string
  {
    if s == "" then "" else UpperChar(s[0]) + Upper(s[1..])
  }

  function NormalizeId(s: string): (r: Option<string>)
    ensures r.Some? ==> WellFormed(r.value)
  {
    var normalized := Upper(Stripped(s));
    if WellFormed(normalized) then Some(normalized) else None
  }

  /** Groups of four symbols, counted from the end. */
  function FormatId(s: string): string
  {
    if |s| <= 4 then s else FormatId(s[..|s| - 4]) + "-" + s[|s| - 4..]
  }

  lemma SymbolIsPlain(c: char)
    requires Symbol(c)
    ensures c != ' ' && c != '-' && UpperChar(c) == [c]
  {}

  lemma {:induction false} PlainText(s: string)
    requires AllSymbols(s)
    ensures Stripped(s) == s && Upper(s) == s
  {
    if s != "" {
      SymbolIsPlain(s[0]);
      hide Symbol, UpperChar;
      PlainText(s[1..]);
    }
  }

  lemma {:induction false} StrippedConcat(s: string, t: string)
    ensures Stripped(s + t) == Stripped(s) + Stripped(t)
  {
    if s == "" {
      assert s + t == t;
    } else {
      assert (s + t)[1..] == s[1..] + t;
      StrippedConcat(s[1..], t);
    }
  }

  /** Exactly the well-formed identifiers are their own normal form. */
  lemma NormalFormsAreFixed(s: string)
    ensures NormalizeId(s) == Some(s) <==> WellFormed(s)
  {
    if WellFormed(s) { PlainText(s); }
  }

  /** Normalising twice is normalising once. */
  lemma NormalizeTwice(s: string, n: string)
    requires NormalizeId(s) == Some(n)
    ensures NormalizeId(n) == Some(n)
  {
    NormalFormsAreFixed(n);
  }

  /** A separator between two texts is lost with the other separators. */
  lemma SeparatorStrips(s: string, t: string)
    ensures Stripped(s + "-" + t) == Stripped(s) + Stripped(t)
  {
    var dashed := "-" + t;
    assert dashed[0] == '-' && dashed[1..] == t;
    assert s + "-" + t == s + dashed;
    StrippedConcat(s, dashed);
  }

  lemma {:induction false} FormatStrips(s: string)
    requires AllSymbols(s)
    ensures Stripped(FormatId(s)) == s
  {
    hide Symbol, Stripped;
    if |s| <= 4 {
      PlainText(s);
    } else {
      var head, tail := s[..|s| - 4], s[|s| - 4..];
      FormatStrips(head);
      PlainText(tail);
      SeparatorStrips(FormatId(head), tail);
      assert head + tail == s;
    }
  }

  /** The printed form of an identifier is another string with the same normal form. */
  lemma FormatRoundTrip(id: AccountId)
    ensures NormalizeId(FormatId(id)) == Some(id) && FormatId(id) != id
  {
    FormatStrips(id);
    PlainText(id);
    FormatGrows(id);
  }

  lemma {:induction false} FormatGrows(s: string)
    ensures |FormatId(s)| >= |s| && (|s| > 4 ==> |FormatId(s)| > |s|)
  {
    if |s| > 4 { FormatGrows(s[..|s| - 4]); }
  }

  /** For an identifier these are its four groups of four. */
  lemma FormatInFours(id: AccountId)
    ensures FormatId(id) == id[..4] + "-" + id[4..8] + "-" + id[8..12] + "-" + id[12..]
  {
    var three, two := id[..12], id[..8];
    assert three[..8] == two && three[8..] == id[8..12] && two[..4] == id[..4] && two[4..] == id[4..8];
    assert FormatId(two) == id[..4] + "-" + id[4..8];
  }

  // ---------- which texts stand for an identifier ----------

  /** The text spells the identifier: separators do not matter, letters have either case, two may be a ligature. */
  predicate Spells(s: string, id: string)
  {
    if s == "" then id == ""
    else if s[0] == ' ' || s[0] == '-' then Spells(s[1..], id)
    else if s[0] == '\U{FB00}' then |id| >= 2 && id[0] == 'F' && id[1] == 'F' && Spells(s[1..], id[2..])
    else id != "" && SameLetter(s[0], id[0]) && Spells(s[1..], id[1..])
  }

  /** The same character, or the lower-case form of a letter. */
  predicate SameLetter(c: char, upper: char)
  {
    c == upper || ('A' <= upper <= 'Z' && c as int == upper as int + 32)
  }

  lemma {:induction false} SpellsNormal(s: string, id: string)
    requires AllSymbols(id)
    ensures Spells(s, id) <==> Upper(Stripped(s)) == id
  {
    hide Symbol;
    if s != "" {
      var rest := s[1..];
      if s[0] == ' ' || s[0] == '-' {
        assert Stripped(s) == Stripped(rest);
        SpellsNormal(rest, id);
      } else {
        assert Stripped(s) == [s[0]] + Stripped(rest) && Upper(Stripped(s)) == UpperChar(s[0]) + Upper(Stripped(rest));
        var n := |UpperChar(s[0])|;
        if |id| >= n {
          assert id == id[..n] + id[n..];
          SpellsNormal(rest, id[n..]);
          if n == 1 { LetterUpper(s[0], id[0]); }
        }
      }
    }
  }

  lemma LetterUpper(c: char, symbol: char)
    requires Symbol(symbol) && c != '\U{FB00}'
    ensures SameLetter(c, symbol) <==> UpperChar(c) == [symbol]
  {
    hide Symbol;
    SymbolRange(symbol);
  }

  lemma SymbolRange(c: char)
    requires Symbol(c)
    ensures '2' <= c <= '9' || 'C' <= c <= 'Y'
  {}

  /** A text is normalised to an identifier exactly if it spells it. */
  lemma NormalizesExactly(s: string, id: AccountId)
    ensures NormalizeId(s) == Some(id) <==> Spells(s, id)
  {
    SpellsNormal(s, id);
  }
}
