/**
 * The casing transform that turns a Rust field identifier (snake_case) into
 * the PascalCase name of its XML element or attribute:
 * `more_complex_field_name` becomes `MoreComplexFieldName`.
 */
module Naming {

  function Upper(c: char): (u: char)
    ensures 'a' <= c <= 'z' ==> 'A' <= u <= 'Z' && u as int == c as int - 32
    ensures !('a' <= c <= 'z') ==> u == c
  {
    if 'a' <= c <= 'z' then (c as int - 32) as char else c
  }

  /** Underscores are dropped; the first character and each one after an underscore is upper-cased. */
  function PascalCase(ident: string): string
  {
    Convert(ident, true)
  }

  /** `PascalCase` from the point where the next character is upper-cased exactly when `capitalize`. */
  function Convert(s: string, capitalize: bool): string
  {
    if s == [] then []
    else if s[0] == '_' then Convert(s[1..], true)
    else [if capitalize then Upper(s[0]) else s[0]] + Convert(s[1..], false)
  }

  // ---------------------------------------------------------------------------
  // An independent reference definition: split at underscores, then capitalize
  // every word and join the words.

  /** The words of `s` between underscores, empty words included. */
  function Words(s: string): (ws: seq<string>)
    ensures |ws| >= 1
    ensures forall i :: 0 <= i < |ws| ==> '_' !in ws[i]
  {
    if s == [] then [[]]
    else if s[0] == '_' then [[]] + Words(s[1..])
    else var w := Words(s[1..]); [[s[0]] + w[0]] + w[1..]
  }

  function Capitalize(w: string): string
  {
    if w == [] then [] else [Upper(w[0])] + w[1..]
  }

  function JoinCapitalized(ws: seq<string>): string
  {
    if ws == [] then [] else Capitalize(ws[0]) + JoinCapitalized(ws[1..])
  }

  lemma {:induction false} ConvertByWords(s: string, capitalize: bool)
    ensures Convert(s, capitalize)
         == (if capitalize then Capitalize(Words(s)[0]) else Words(s)[0]) + JoinCapitalized(Words(s)[1..])
  {
    if s == [] {
    } else if s[0] == '_' {
      ConvertByWords(s[1..], true);
      var w := Words(s[1..]);
      assert Words(s)[1..] == w;
      assert JoinCapitalized(w) == Capitalize(w[0]) + JoinCapitalized(w[1..]);
    } else {
      ConvertByWords(s[1..], false);
      var w := Words(s[1..]);
      assert Words(s)[0] == [s[0]] + w[0];
      assert Words(s)[1..] == w[1..];
    }
  }

  /** The transform is "capitalize every underscore-separated word and join them". */
  lemma PascalCaseByWords(ident: string)
    ensures PascalCase(ident) == JoinCapitalized(Words(ident))
  {
    ConvertByWords(ident, true);
    var w := Words(ident);
    assert JoinCapitalized(w) == Capitalize(w[0]) + JoinCapitalized(w[1..]);
  }

  // ---------------------------------------------------------------------------

  lemma {:induction false} ConvertHasNoUnderscore(s: string, capitalize: bool)
    ensures '_' !in Convert(s, capitalize)
  {
    if s != [] {
      ConvertHasNoUnderscore(s[1..], s[0] == '_');
    }
  }

  lemma {:induction false} ConvertKeeps(s: string)
    requires '_' !in s
    ensures Convert(s, false) == s
  {
    if s != [] {
      assert s[0] in s;
      assert forall i :: 0 <= i < |s[1..]| ==> s[1..][i] == s[i + 1];
      ConvertKeeps(s[1..]);
    }
  }

  /** The result has no underscore, and its first character is already upper-case. */
  lemma {:induction false} PascalCaseShape(s: string)
    ensures '_' !in PascalCase(s)
    ensures PascalCase(s) != [] ==> Upper(PascalCase(s)[0]) == PascalCase(s)[0]
  {
    ConvertHasNoUnderscore(s, true);
    if s != [] {
      if s[0] == '_' {
        PascalCaseShape(s[1..]);
      }
    }
  }

  /** Applying the transform to a name it produced changes nothing. */
  lemma PascalCaseIdempotent(s: string)
    ensures PascalCase(PascalCase(s)) == PascalCase(s)
  {
    var r := PascalCase(s);
    PascalCaseShape(s);
    if r != [] {
      assert r[0] in r;
      assert '_' !in r[1..] by {
        forall i | 0 <= i < |r[1..]| ensures r[1..][i] != '_' {
          assert r[1..][i] == r[i + 1];
        }
      }
      ConvertKeeps(r[1..]);
      assert r == [r[0]] + r[1..];
    }
  }

  /** A word without underscores, then an underscore: the word is done and the next one starts. */
  lemma {:induction false} ConvertWord(w: string, rest: string, capitalize: bool)
    requires '_' !in w
    ensures Convert(w + "_" + rest, capitalize)
         == (if capitalize then Capitalize(w) else w) + Convert(rest, true)
  {
    if w == [] {
      assert w + "_" + rest == "_" + rest;
    } else {
      assert (w + "_" + rest)[1..] == w[1..] + "_" + rest;
      assert w[0] in w;
      assert '_' !in w[1..] by {
        forall i | 0 <= i < |w[1..]| ensures w[1..][i] != '_' {
          assert w[1..][i] == w[i + 1];
        }
      }
      ConvertWord(w[1..], rest, false);
    }
  }

  /** The transform works word by word: a leading underscore-free word is capitalized and the rest follows. */
  lemma PascalCaseJoin(w: string, rest: string)
    requires '_' !in w
    ensures PascalCase(w + "_" + rest) == Capitalize(w) + PascalCase(rest)
  {
    ConvertWord(w, rest, true);
  }

  /** A single word is only capitalized. */
  lemma PascalCaseWord(w: string)
    requires '_' !in w
    ensures PascalCase(w) == Capitalize(w)
  {
    if w != [] {
      assert w[0] in w;
      assert '_' !in w[1..] by {
        forall i | 0 <= i < |w[1..]| ensures w[1..][i] != '_' {
          assert w[1..][i] == w[i + 1];
        }
      }
      ConvertKeeps(w[1..]);
    }
  }
}
