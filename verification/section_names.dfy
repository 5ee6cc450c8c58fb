/**
 * The string handling of objectFile.c: leading-space trimming, upper-casing,
 * the section-prefix table, strtok as a pure tokenizer, and the normalisation
 * of relocation symbols (decoration stripping).
 *
 * Strings are the text that fgets delivers, trailing "\n" included; the C
 * terminator is not part of a Dafny string.
 */
module SectionNames {
  import opened Wrappers

  /** isspace in the C locale. */
  predicate IsSpace(c: char)
  {
    c == ' ' || c == '\t' || c == '\n' || c == '\r' || c == '\U{000B}' || c == '\U{000C}'
  }

  /** isdigit. */
  predicate IsDigit(c: char)
  {
    '0' <= c <= '9'
  }

  /** toupper in the C locale: only 'a'..'z' change. */
  function ToUpperChar(c: char): (u: char)
    ensures 'a' <= c <= 'z' ==> 'A' <= u <= 'Z' && u as int == c as int - 32
    ensures !('a' <= c <= 'z') ==> u == c
  {
    if 'a' <= c <= 'z' then (c as int - 32) as char else c
  }

  predicate StartsWith(s: string, p: string)
  {
    |p| <= |s| && s[..|p|] == p
  }

  /**
   * trim: the suffix of `s` that starts at its first non-space character.
   */
  function Trim(s: string): (r: string)
    ensures |r| <= |s|
    ensures forall i :: 0 <= i < |s| - |r| ==> IsSpace(s[i])
    ensures r == [] || !IsSpace(r[0])
    decreases |s|
  {
    if s != [] && IsSpace(s[0]) then Trim(s[1..]) else s
  }

  /** trim only advances the pointer: its result is a suffix of its argument. */
  lemma {:induction false} TrimIsSuffix(s: string)
    ensures Trim(s) == s[|s| - |Trim(s)|..]
    decreases |s|
  {
    if s != [] && IsSpace(s[0]) {
      TrimIsSuffix(s[1..]);
      assert s[1..][|s| - 1 - |Trim(s)|..] == s[|s| - |Trim(s)|..];
    }
  }

  /** upper: every character replaced by its upper-case form. */
  function Upper(s: string): (r: string)
    ensures |r| == |s|
    ensures forall i :: 0 <= i < |s| ==> r[i] == ToUpperChar(s[i])
    decreases |s|
  {
    if s == [] then [] else [ToUpperChar(s[0])] + Upper(s[1..])
  }

  /** upper, as the C code runs it: in place over a character buffer. */
  method UpperInPlace(buf: array<char>)
    modifies buf
    ensures buf[..] == Upper(old(buf[..]))
  {
    for i := 0 to buf.Length
      invariant forall k :: 0 <= k < i ==> buf[k] == ToUpperChar(old(buf[k]))
      invariant forall k :: i <= k < buf.Length ==> buf[k] == old(buf[k])
    {
      buf[i] := ToUpperChar(buf[i]);
    }
  }

  /** The section-name prefixes of the prefix[] table, in table order. */
  const Prefixes: seq<string> := [".text$", ".rdata$", ".data$"]

  /** The weak section names of the weak[] table. */
  const Weak: seq<string> := [".rdata"]

  /**
   * The `while (i--)` search of the prefix table: entries i-1 down to 0 are
   * tried and the first that `s` starts with is reported.
   */
  function MatchPrefixBelow(s: string, i: nat): (r: Option<nat>)
    requires i <= |Prefixes|
    ensures r.Some? ==> r.value < i && StartsWith(s, Prefixes[r.value])
    ensures r.None? ==> forall k :: 0 <= k < i ==> !StartsWith(s, Prefixes[k])
  {
    if i == 0 then None
    else if StartsWith(s, Prefixes[i - 1]) then Some(i - 1)
    else MatchPrefixBelow(s, i - 1)
  }

  /** The prefix-table entry `s` starts with, if any. */
  function MatchPrefix(s: string): Option<nat>
  {
    MatchPrefixBelow(s, |Prefixes|)
  }

  /**
   * No name starts with two different prefixes, so the order in which the C
   * loop tries them does not matter.
   */
  lemma AtMostOnePrefix(s: string)
    ensures forall i, j ::
      (0 <= i < |Prefixes| && 0 <= j < |Prefixes| && StartsWith(s, Prefixes[i]) && StartsWith(s, Prefixes[j])) ==> i == j
  {
    forall i, j | 0 <= i < |Prefixes| && 0 <= j < |Prefixes|
      && StartsWith(s, Prefixes[i]) && StartsWith(s, Prefixes[j])
      ensures i == j
    {
      assert s[1] == Prefixes[i][1] && s[1] == Prefixes[j][1];
    }
  }

  /**
   * The key a section name is filed under: the name with its prefix removed,
   * or the name itself when it carries none.
   */
  function StripPrefix(s: string): string
  {
    match MatchPrefix(s)
    case Some(k) =>
      AtMostOnePrefix(s);
      s[|Prefixes[k]|..]
    case None => s
  }

  /**
   * A name that starts with a prefix loses exactly that prefix; any other
   * name is its own key.
   */
  lemma StripPrefixSpec(s: string)
    ensures forall k :: 0 <= k < |Prefixes| && StartsWith(s, Prefixes[k]) ==> StripPrefix(s) == s[|Prefixes[k]|..]
    ensures (forall k :: 0 <= k < |Prefixes| ==> !StartsWith(s, Prefixes[k])) ==> StripPrefix(s) == s
  {
    AtMostOnePrefix(s);
  }

  /** A prefixed name is filed under what follows the prefix. */
  lemma StripPrefixOf(k: nat, u: string)
    requires k < |Prefixes|
    ensures StripPrefix(Prefixes[k] + u) == u
  {
    var s := Prefixes[k] + u;
    assert s[..|Prefixes[k]|] == Prefixes[k] && s[|Prefixes[k]|..] == u;
    StripPrefixSpec(s);
  }

  /** Whether `s` starts with a known section prefix. */
  predicate HasPrefix(s: string)
  {
    MatchPrefix(s).Some?
  }

  /** The length of the leading run of non-delimiters. */
  function RunLength(s: string, delims: set<char>): (n: nat)
    ensures n <= |s|
    ensures forall i :: 0 <= i < n ==> s[i] !in delims
    ensures n == |s| || s[n] in delims
    decreases |s|
  {
    if s == [] || s[0] in delims then 0 else 1 + RunLength(s[1..], delims)
  }

  /**
   * The tokens successive strtok calls return: the maximal runs of
   * non-delimiter characters, in order.
   */
  function Tokens(s: string, delims: set<char>): (r: seq<string>)
    ensures forall k :: 0 <= k < |r| ==> r[k] != []
    ensures forall k, i :: 0 <= k < |r| && 0 <= i < |r[k]| ==> r[k][i] !in delims
    decreases |s|
  {
    if s == [] then []
    else if s[0] in delims then Tokens(s[1..], delims)
    else
      var n := RunLength(s, delims);
      [s[..n]] + Tokens(s[n..], delims)
  }

  /** The characters of `s` that are not delimiters. */
  function WithoutDelims(s: string, delims: set<char>): string
    decreases |s|
  {
    if s == [] then []
    else if s[0] in delims then WithoutDelims(s[1..], delims)
    else [s[0]] + WithoutDelims(s[1..], delims)
  }

  function Concat(ts: seq<string>): string
  {
    if ts == [] then [] else ts[0] + Concat(ts[1..])
  }

  /** strtok loses nothing but the delimiters. */
  lemma {:induction false} TokensKeepText(s: string, delims: set<char>)
    ensures Concat(Tokens(s, delims)) == WithoutDelims(s, delims)
    decreases |s|
  {
    if s == [] {
    } else if s[0] in delims {
      TokensKeepText(s[1..], delims);
    } else {
      var n := RunLength(s, delims);
      TokensKeepText(s[n..], delims);
      RunWithoutDelims(s, n, delims);
      assert Tokens(s, delims) == [s[..n]] + Tokens(s[n..], delims);
      assert Concat(Tokens(s, delims)) == s[..n] + Concat(Tokens(s[n..], delims));
    }
  }

  lemma {:induction false} RunWithoutDelims(s: string, n: nat, delims: set<char>)
    requires n <= |s| && forall i :: 0 <= i < n ==> s[i] !in delims
    ensures WithoutDelims(s, delims) == s[..n] + WithoutDelims(s[n..], delims)
    decreases n
  {
    if n > 0 {
      RunWithoutDelims(s[1..], n - 1, delims);
      assert s[1..][n - 1..] == s[n..];
      assert [s[0]] + s[1..][..n - 1] == s[..n];
    }
  }

  /** The k-th strtok result (counting from 0), or NULL. */
  function NthToken(s: string, delims: set<char>, k: nat): Option<string>
  {
    var ts := Tokens(s, delims);
    if k < |ts| then Some(ts[k]) else None
  }

  /** The suffix-trimmed string: trailing whitespace removed. */
  function TrimRight(s: string): (r: string)
    ensures |r| <= |s| && r == s[..|r|]
    ensures forall i :: |r| <= i < |s| ==> IsSpace(s[i])
    ensures r == [] || !IsSpace(r[|r| - 1])
    decreases |s|
  {
    if s != [] && IsSpace(s[|s| - 1]) then TrimRight(s[..|s| - 1]) else s
  }

  /**
   * The STDCALL scan exactly as the C code runs it: the pointer starts on the
   * last character, and `while (isdigit(*--i))` steps off it before testing,
   * so the last character is never looked at.  `j` is that pointer.
   */
  function DigitScanBack(u: string, j: int): (r: int)
    requires -1 <= j < |u|
    ensures -1 <= r <= j
    ensures forall k :: r < k <= j ==> IsDigit(u[k])
    ensures r >= 0 ==> !IsDigit(u[r])
    decreases j + 1
  {
    if j >= 0 && IsDigit(u[j]) then DigitScanBack(u, j - 1) else j
  }

  function StripStdcallAsWritten(u: string): string
  {
    if u == [] then u
    else
      var j := DigitScanBack(u, |u| - 2);
      if j >= 0 && u[j] == '@' then u[..j] else u
  }

  /**
   * The evidently intended STDCALL stripping: an '@' followed by one or more
   * digits at the end of the name is removed.
   */
  function StripStdcall(u: string): (r: string)
    ensures r == u || (|r| < |u| - 1 && u[|r|] == '@' && forall k :: |r| < k < |u| ==> IsDigit(u[k]))
  {
    var j := DigitScanBack(u, |u| - 1);
    if 0 <= j < |u| - 1 && u[j] == '@' then u[..j] else u
  }

  /** A name that carries no '@' and no whitespace. */
  predicate PlainName(n: string)
  {
    n != [] && forall i :: 0 <= i < |n| ==> n[i] != '@' && !IsSpace(n[i])
  }

  predicate AllDigits(d: string)
  {
    forall i :: 0 <= i < |d| ==> IsDigit(d[i])
  }

  /** The corrected STDCALL stripping removes exactly an "@nn" decoration. */
  lemma StripStdcallRemovesDecoration(n: string, d: string)
    requires PlainName(n) && d != [] && AllDigits(d)
    ensures StripStdcall(n + "@" + d) == n
  {
    var u := n + "@" + d;
    assert forall k :: |n| < k < |u| ==> u[k] == d[k - |n| - 1];
    assert DigitScanBack(u, |u| - 1) == |n| by {
      DigitRunBack(u, |n|, |u| - 1);
    }
    assert u[..|n|] == n;
  }

  lemma {:induction false} DigitRunBack(u: string, stop: nat, j: int)
    requires stop <= j < |u|
    requires !IsDigit(u[stop])
    requires forall k :: stop < k <= j ==> IsDigit(u[k])
    ensures DigitScanBack(u, j) == stop
    decreases j
  {
    if j > stop {
      DigitRunBack(u, stop, j - 1);
    }
  }

  /** A name without a decoration is left alone by the STDCALL stripping. */
  lemma StripStdcallKeepsPlain(n: string)
    requires PlainName(n)
    ensures StripStdcall(n) == n
  {
  }

  /**
   * The two scans differ only on a name that ends in a non-digit: when the
   * last character is a digit they cut at the same '@', and otherwise the
   * corrected scan keeps the name whole.
   */
  lemma StripStdcallAgreement(u: string)
    requires u != []
    ensures IsDigit(u[|u| - 1]) ==> StripStdcallAsWritten(u) == StripStdcall(u)
    ensures !IsDigit(u[|u| - 1]) ==> StripStdcall(u) == u
  {
    if IsDigit(u[|u| - 1]) {
      assert DigitScanBack(u, |u| - 1) == DigitScanBack(u, |u| - 2);
    }
  }

  /** The as-written scan removes a well-formed "@nn" decoration as well. */
  lemma StripStdcallAsWrittenRemovesDecoration(n: string, d: string)
    requires PlainName(n) && d != [] && AllDigits(d)
    ensures StripStdcallAsWritten(n + "@" + d) == n
  {
    var u := n + "@" + d;
    assert forall k :: |n| < k < |u| ==> u[k] == d[k - |n| - 1];
    DigitRunBack(u, |n|, |u| - 2);
    assert u[..|n|] == n;
  }

  /**
   * The as-written scan cuts a name at an '@' that is followed by ANY single
   * character: "foo@x" loses its "@x" although x is not a digit.
   */
  lemma StripStdcallAsWrittenCutsNonDigit()
    ensures StripStdcallAsWritten("foo@x") == "foo"
    ensures StripStdcall("foo@x") == "foo@x"
  {
    assert DigitScanBack("foo@x", 3) == 3;
    assert DigitScanBack("foo@x", 4) == 4;
  }

  /**
   * The front end of the relocation symbol normalisation: a leading '_' is
   * dropped; a leading '@' (FASTCALL) is dropped and the name is cut at the
   * next '@' (strtok with "@", NULL when nothing follows); otherwise a known
   * section prefix is removed.
   */
  function StripFront(t: string): Option<string>
  {
    if t != [] && t[0] == '_' then Some(t[1..])
    else if t != [] && t[0] == '@' then NthToken(t[1..], {'@'}, 0)
    else Some(StripPrefix(t))
  }

  /** The symbol normalisation of parseRelocSection, as the C code runs it. */
  function NormaliseSymbolAsWritten(t: string): Option<string>
  {
    match StripFront(t)
    case Some(u) => Some(StripStdcallAsWritten(TrimRight(u)))
    case None => None
  }

  /** The symbol normalisation with the corrected STDCALL stripping. */
  function NormaliseSymbol(t: string): Option<string>
  {
    match StripFront(t)
    case Some(u) => Some(StripStdcall(TrimRight(u)))
    case None => None
  }

  /** How a compiler decorates a symbol. */
  datatype Decoration = Cdecl | Stdcall(argBytes: string) | Fastcall(argBytes: string) | InSection(prefix: nat)

  predicate WellFormed(dec: Decoration)
  {
    match dec
    case Cdecl => true
    case Stdcall(d) => d != [] && AllDigits(d)
    case Fastcall(d) => d != [] && AllDigits(d)
    case InSection(k) => k < |Prefixes|
  }

  function Decorate(dec: Decoration, n: string): string
    requires WellFormed(dec)
  {
    match dec
    case Cdecl => "_" + n
    case Stdcall(d) => "_" + n + "@" + d
    case Fastcall(d) => "@" + n + "@" + d
    case InSection(k) => Prefixes[k] + n
  }

  /**
   * Normalisation undoes every decoration, whatever whitespace (the "\n" that
   * fgets keeps) trails the token; the program's own normalisation agrees
   * with the corrected one on every such symbol.
   */
  lemma NormaliseUndoesDecoration(dec: Decoration, n: string, ws: string)
    requires WellFormed(dec) && PlainName(n)
    requires forall i :: 0 <= i < |ws| ==> IsSpace(ws[i])
    ensures NormaliseSymbol(Decorate(dec, n) + ws) == Some(n)
    ensures NormaliseSymbolAsWritten(Decorate(dec, n) + ws) == Some(n)
  {
    match dec
    case Cdecl => NormaliseCdecl(n, ws);
    case Stdcall(d) => NormaliseStdcall(n, d, ws);
    case Fastcall(d) => NormaliseFastcall(n, d, ws);
    case InSection(k) => NormaliseInSection(k, n, ws);
  }

  lemma NormaliseCdecl(n: string, ws: string)
    requires PlainName(n)
    requires forall i :: 0 <= i < |ws| ==> IsSpace(ws[i])
    ensures NormaliseSymbol(Decorate(Cdecl, n) + ws) == Some(n)
    ensures NormaliseSymbolAsWritten(Decorate(Cdecl, n) + ws) == Some(n)
  {
    var t := Decorate(Cdecl, n) + ws;
    assert t[0] == '_' && t[1..] == n + ws;
    TrimRightOfPadded(n, ws);
    StripStdcallKeepsPlain(n);
  }

  lemma NormaliseStdcall(n: string, d: string, ws: string)
    requires PlainName(n) && d != [] && AllDigits(d)
    requires forall i :: 0 <= i < |ws| ==> IsSpace(ws[i])
    ensures NormaliseSymbol(Decorate(Stdcall(d), n) + ws) == Some(n)
    ensures NormaliseSymbolAsWritten(Decorate(Stdcall(d), n) + ws) == Some(n)
  {
    var t := Decorate(Stdcall(d), n) + ws;
    var u := n + "@" + d;
    assert t[0] == '_' && t[1..] == u + ws;
    TrimRightOfPadded(u, ws);
    StripStdcallRemovesDecoration(n, d);
    StripStdcallAsWrittenRemovesDecoration(n, d);
  }

  lemma NormaliseFastcall(n: string, d: string, ws: string)
    requires PlainName(n) && d != [] && AllDigits(d)
    requires forall i :: 0 <= i < |ws| ==> IsSpace(ws[i])
    ensures NormaliseSymbol(Decorate(Fastcall(d), n) + ws) == Some(n)
    ensures NormaliseSymbolAsWritten(Decorate(Fastcall(d), n) + ws) == Some(n)
  {
    var t := Decorate(Fastcall(d), n) + ws;
    assert t[0] == '@' && t[1..] == n + ("@" + d + ws);
    FirstTokenOfPlain(n, "@" + d + ws);
    StripStdcallKeepsPlain(n);
  }

  lemma NormaliseInSection(k: nat, n: string, ws: string)
    requires k < |Prefixes| && PlainName(n)
    requires forall i :: 0 <= i < |ws| ==> IsSpace(ws[i])
    ensures NormaliseSymbol(Decorate(InSection(k), n) + ws) == Some(n)
    ensures NormaliseSymbolAsWritten(Decorate(InSection(k), n) + ws) == Some(n)
  {
    var t := Decorate(InSection(k), n) + ws;
    assert t == Prefixes[k] + (n + ws);
    StripPrefixOf(k, n + ws);
    assert t[0] == '.';
    TrimRightOfPadded(n, ws);
    StripStdcallKeepsPlain(n);
  }

  lemma {:induction false} TrimRightOfPadded(u: string, ws: string)
    requires u != [] && !IsSpace(u[|u| - 1])
    requires forall i :: 0 <= i < |ws| ==> IsSpace(ws[i])
    ensures TrimRight(u + ws) == u
    decreases |ws|
  {
    if ws == [] {
      assert u + ws == u;
    } else {
      assert (u + ws)[..|u + ws| - 1] == u + ws[..|ws| - 1];
      TrimRightOfPadded(u, ws[..|ws| - 1]);
    }
  }

  lemma FirstTokenOfPlain(n: string, rest: string)
    requires PlainName(n) && rest != [] && rest[0] == '@'
    ensures NthToken(n + rest, {'@'}, 0) == Some(n)
  {
    var s := n + rest;
    assert RunLength(s, {'@'}) == |n| by {
      RunLengthOf(s, |n|, {'@'});
    }
    assert s[..|n|] == n;
  }

  lemma {:induction false} RunLengthOf(s: string, n: nat, delims: set<char>)
    requires n < |s| && s[n] in delims
    requires forall i :: 0 <= i < n ==> s[i] !in delims
    ensures RunLength(s, delims) == n
    decreases n
  {
    if n > 0 {
      RunLengthOf(s[1..], n - 1, delims);
    }
  }
}
