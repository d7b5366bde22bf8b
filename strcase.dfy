/**
 * utils/strcase.go: conversion of a name to CamelCase or lowerCamelCase, one
 * character at a time. Letters and digits are kept; every other character is
 * dropped and only decides whether the next letter is capitalised.
 */
module StrCase {
  import opened Text

  predicate IsAlnum(c: char) { IsLetter(c) || IsDigit(c) }

  /** The characters after which the next letter is capitalised (besides digits). */
  predicate IsSeparator(c: char) { c == '_' || c == ' ' || c == '-' || c == '.' }

  // ---------------------------------------------------------------------------
  // Reference definition: each output character as a function of the input
  // ---------------------------------------------------------------------------

  /** Whether a capitalisation is pending when the loop reaches position `i` of `t`. */
  function CapNextAt(t: string, i: nat, initCase: bool): bool
    requires i <= |t|
  {
    if i == 0 then initCase
    else
      var c := t[i - 1];
      if IsLetter(c) then false
      else if IsDigit(c) then true
      else IsSeparator(c)
  }

  /** The character written for position `i` of `t`, if it is written at all. */
  function Transform(t: string, i: nat, initCase: bool, hasAcronym: bool): char
    requires i < |t|
  {
    var v := t[i];
    if CapNextAt(t, i, initCase) then UpperChar(v)
    else if i == 0 then LowerChar(v)
    else if IsUpper(t[i - 1]) && IsUpper(v) && !hasAcronym then LowerChar(v)
    else v
  }

  /** A letter stops a pending capitalisation; a digit or a separator starts one. */
  lemma CapNextAtSpec(t: string, i: nat, initCase: bool)
    requires i <= |t|
    ensures i > 0 && IsLetter(t[i - 1]) ==> !CapNextAt(t, i, initCase)
    ensures i > 0 && (IsDigit(t[i - 1]) || IsSeparator(t[i - 1])) ==> CapNextAt(t, i, initCase)
  {
  }

  /**
   * A written character keeps its class, digits are copied, a pending
   * capitalisation upper-cases, the first character is otherwise lower-cased,
   * and without an acronym entry the second of two capitals is lower-cased.
   */
  lemma TransformSpec(t: string, i: nat, initCase: bool, hasAcronym: bool)
    requires i < |t|
    ensures var c := Transform(t, i, initCase, hasAcronym);
            && (IsLetter(t[i]) <==> IsLetter(c))
            && (IsDigit(t[i]) ==> c == t[i])
            && (CapNextAt(t, i, initCase) ==> c == UpperChar(t[i]))
            && (!CapNextAt(t, i, initCase) && i == 0 ==> c == LowerChar(t[i]))
            && (i > 0 && IsUpper(t[i - 1]) && IsUpper(t[i]) && !hasAcronym ==> c == LowerChar(t[i]))
            && (c == t[i] || c == UpperChar(t[i]) || c == LowerChar(t[i]))
  {
  }

  /** What the loop has written after reading the first `n` characters of `t`. */
  function CamelPrefix(t: string, n: nat, initCase: bool, hasAcronym: bool): string
    requires n <= |t|
  {
    if n == 0 then ""
    else
      var r := CamelPrefix(t, n - 1, initCase, hasAcronym);
      if IsAlnum(t[n - 1]) then r + [Transform(t, n - 1, initCase, hasAcronym)] else r
  }

  /**
   * toCamelInitCase as a function of its input: trim, look the result up in the
   * acronym table, then convert.
   */
  function CamelCase(s: string, initCase: bool, acronyms: map<string, string>): string {
    var t := TrimSpace(s);
    if t == "" then ""
    else
      var hasAcronym := t in acronyms;
      var u := if hasAcronym then acronyms[t] else t;
      CamelPrefix(u, |u|, initCase, hasAcronym)
  }

  /** After `n` characters at most `n` are written, each a letter or a digit. */
  lemma {:induction false} CamelPrefixAlnum(t: string, n: nat, initCase: bool, hasAcronym: bool)
    requires n <= |t|
    ensures var r := CamelPrefix(t, n, initCase, hasAcronym);
            |r| <= n && forall k :: 0 <= k < |r| ==> IsAlnum(r[k])
  {
    if n > 0 {
      CamelPrefixAlnum(t, n - 1, initCase, hasAcronym);
      TransformSpec(t, n - 1, initCase, hasAcronym);
    }
  }

  /**
   * Blank input gives an empty name; the output holds only letters and digits,
   * and, without an acronym entry, is no longer than the trimmed input.
   */
  lemma CamelCaseShape(s: string, initCase: bool, acronyms: map<string, string>)
    ensures var r := CamelCase(s, initCase, acronyms);
            && (TrimSpace(s) == "" ==> r == "")
            && (forall k :: 0 <= k < |r| ==> IsAlnum(r[k]))
            && (TrimSpace(s) !in acronyms ==> |r| <= |TrimSpace(s)|)
  {
    var t := TrimSpace(s);
    if t != "" {
      var u := if t in acronyms then acronyms[t] else t;
      CamelPrefixAlnum(u, |u|, initCase, t in acronyms);
    }
  }

  // ---------------------------------------------------------------------------
  // The loop
  // ---------------------------------------------------------------------------

  /**
   * toCamelInitCase. `acronyms` is the read-only acronym table (the source
   * keeps it in a `sync.Map` that nothing in the repository stores into).
   */
  method ToCamelInitCase(s: string, initCase: bool, acronyms: map<string, string>) returns (r: string)
    ensures r == CamelCase(s, initCase, acronyms)
  {
    var t := TrimSpace(s);
    if t == "" {
      return t;
    }
    var hasAcronym := t in acronyms;
    if hasAcronym {
      t := acronyms[t];
    }
    var n := "";
    var capNext := initCase;
    var prevIsCap := false;
    var i := 0;
    while i < |t|
      invariant 0 <= i <= |t|
      invariant n == CamelPrefix(t, i, initCase, hasAcronym)
      invariant capNext == CapNextAt(t, i, initCase)
      invariant prevIsCap == (i > 0 && IsUpper(t[i - 1]))
    {
      var v := t[i];
      var vIsCap := IsUpper(v);
      var vIsLow := IsLower(v);
      if capNext {
        if vIsLow {
          v := UpperChar(v);
        }
      } else if i == 0 {
        if vIsCap {
          v := LowerChar(v);
        }
      } else if prevIsCap && vIsCap && !hasAcronym {
        v := LowerChar(v);
      }
      prevIsCap := vIsCap;

      if vIsCap || vIsLow {
        n := n + [v];
        capNext := false;
      } else if IsDigit(v) {
        n := n + [v];
        capNext := true;
      } else {
        capNext := IsSeparator(v);
      }
      i := i + 1;
    }
    r := n;
  }

  /** ToCamel: the first letter is capitalised. */
  method ToCamel(s: string, acronyms: map<string, string>) returns (r: string)
    ensures r == CamelCase(s, true, acronyms)
  {
    r := ToCamelInitCase(s, true, acronyms);
  }

  /** ToLowerCamel: the first letter is lower-cased. */
  method ToLowerCamel(s: string, acronyms: map<string, string>) returns (r: string)
    ensures r == CamelCase(s, false, acronyms)
  {
    r := ToCamelInitCase(s, false, acronyms);
  }

  // ---------------------------------------------------------------------------
  // Properties
  // ---------------------------------------------------------------------------

  /** What is written after `m` characters is a prefix of what is written after `n >= m`. */
  lemma {:induction false} CamelPrefixGrows(t: string, m: nat, n: nat, initCase: bool, hasAcronym: bool)
    requires m <= n <= |t|
    ensures CamelPrefix(t, m, initCase, hasAcronym) <= CamelPrefix(t, n, initCase, hasAcronym)
    decreases n - m
  {
    if m < n {
      CamelPrefixGrows(t, m, n - 1, initCase, hasAcronym);
    }
  }

  /**
   * A letter or digit at position `i` of the input is written, transformed, at
   * the position that counts the letters and digits before it.
   */
  lemma {:induction false} CamelPlacement(t: string, i: nat, initCase: bool, hasAcronym: bool)
    requires i < |t| && IsAlnum(t[i])
    ensures var k := |CamelPrefix(t, i, initCase, hasAcronym)|;
            var r := CamelPrefix(t, |t|, initCase, hasAcronym);
            k < |r| && r[k] == Transform(t, i, initCase, hasAcronym)
  {
    CamelPrefixGrows(t, i + 1, |t|, initCase, hasAcronym);
  }

  /** The output length is the number of letters and digits of the input. */
  function AlnumCount(t: string): (n: nat)
    ensures n <= |t|
  {
    if t == "" then 0 else AlnumCount(t[..|t| - 1]) + (if IsAlnum(t[|t| - 1]) then 1 else 0)
  }

  /** Exactly the letters and digits are written. */
  lemma {:induction false} CamelLength(t: string, n: nat, initCase: bool, hasAcronym: bool)
    requires n <= |t|
    ensures |CamelPrefix(t, n, initCase, hasAcronym)| == AlnumCount(t[..n])
  {
    if n > 0 {
      CamelLength(t, n - 1, initCase, hasAcronym);
      assert t[..n][..n - 1] == t[..n - 1];
    }
  }

  /** Digits are copied unchanged. */
  lemma DigitKept(s: string, initCase: bool, acronyms: map<string, string>, i: nat)
    requires TrimSpace(s) !in acronyms
    requires i < |TrimSpace(s)| && IsDigit(TrimSpace(s)[i])
    ensures var t := TrimSpace(s);
            var r := CamelCase(s, initCase, acronyms);
            var k := |CamelPrefix(t, i, initCase, false)|;
            k < |r| && r[k] == t[i]
  {
    CamelPlacement(TrimSpace(s), i, initCase, false);
  }

  /** A letter that follows a digit or one of `_`, ` `, `-`, `.` is capitalised. */
  lemma CapitalisedAfterSeparator(s: string, initCase: bool, acronyms: map<string, string>, i: nat)
    requires TrimSpace(s) !in acronyms
    requires 0 < i < |TrimSpace(s)| && IsLetter(TrimSpace(s)[i])
    requires IsDigit(TrimSpace(s)[i - 1]) || IsSeparator(TrimSpace(s)[i - 1])
    ensures var t := TrimSpace(s);
            var r := CamelCase(s, initCase, acronyms);
            var k := |CamelPrefix(t, i, initCase, false)|;
            k < |r| && r[k] == UpperChar(t[i]) && IsUpper(r[k])
  {
    CamelPlacement(TrimSpace(s), i, initCase, false);
  }

  /**
   * Without an acronym entry, an upper-case letter right after an upper-case
   * letter is lower-cased (no capitalisation can be pending after a letter).
   */
  lemma UpperRunLowered(s: string, initCase: bool, acronyms: map<string, string>, i: nat)
    requires TrimSpace(s) !in acronyms
    requires 0 < i < |TrimSpace(s)| && IsUpper(TrimSpace(s)[i - 1]) && IsUpper(TrimSpace(s)[i])
    ensures var t := TrimSpace(s);
            var r := CamelCase(s, initCase, acronyms);
            var k := |CamelPrefix(t, i, initCase, false)|;
            k < |r| && r[k] == LowerChar(t[i]) && IsLower(r[k])
  {
    CamelPlacement(TrimSpace(s), i, initCase, false);
  }

  /** The first character of the trimmed input is a letter or digit, so it is written first. */
  lemma {:induction false} FirstCharacter(s: string, initCase: bool, acronyms: map<string, string>)
    requires TrimSpace(s) !in acronyms
    requires TrimSpace(s) != "" && IsAlnum(TrimSpace(s)[0])
    ensures var t := TrimSpace(s);
            var r := CamelCase(s, initCase, acronyms);
            r != "" && r[0] == (if initCase then UpperChar(t[0]) else LowerChar(t[0]))
  {
    var t := TrimSpace(s);
    CamelPlacement(t, 0, initCase, false);
  }

  /** ToCamel capitalises a lower-case first letter. */
  lemma ToCamelFirstUpper(s: string, acronyms: map<string, string>)
    requires TrimSpace(s) !in acronyms
    requires TrimSpace(s) != "" && IsLetter(TrimSpace(s)[0])
    ensures var r := CamelCase(s, true, acronyms); r != "" && IsUpper(r[0])
  {
    FirstCharacter(s, true, acronyms);
  }

  /** ToLowerCamel lower-cases an upper-case first letter. */
  lemma ToLowerCamelFirstLower(s: string, acronyms: map<string, string>)
    requires TrimSpace(s) !in acronyms
    requires TrimSpace(s) != "" && IsLetter(TrimSpace(s)[0])
    ensures var r := CamelCase(s, false, acronyms); r != "" && IsLower(r[0])
  {
    FirstCharacter(s, false, acronyms);
  }
}
