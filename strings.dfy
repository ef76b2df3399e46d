/**
 * String primitives shared by the content scripts: the whitespace sets of
 * Python's `str.strip` and JavaScript's `String.prototype.trim`, literal
 * `split`/`join`, the backslash doubling used when a value is embedded in a
 * template literal, and the decimal rendering of the numbered keys.
 */
module Strings {

  datatype Option<T> = None | Some(value: T)

  /** Which language's notion of whitespace a trim uses. */
  datatype Lang = Python | JavaScript

  /** `str.isspace` (Python) or the WhiteSpace/LineTerminator set of `trim` (JavaScript). */
  predicate IsSpace(lang: Lang, c: char)
  {
    match lang
    case Python =>
      c == ' ' || c == '\t' || c == '\n' || c == '\r' || c == '\U{0B}' || c == '\U{0C}'
      || ('\U{1C}' <= c <= '\U{1F}') || c == '\U{85}' || c == '\U{A0}' || c == '\U{1680}'
      || ('\U{2000}' <= c <= '\U{200A}') || c == '\U{2028}' || c == '\U{2029}'
      || c == '\U{202F}' || c == '\U{205F}' || c == '\U{3000}'
    case JavaScript =>
      c == ' ' || c == '\t' || c == '\n' || c == '\r' || c == '\U{0B}' || c == '\U{0C}'
      || c == '\U{A0}' || c == '\U{1680}' || ('\U{2000}' <= c <= '\U{200A}')
      || c == '\U{2028}' || c == '\U{2029}' || c == '\U{202F}' || c == '\U{205F}'
      || c == '\U{3000}' || c == '\U{FEFF}'
  }

  /** Every character of `s` is whitespace. */
  predicate Blank(lang: Lang, s: string)
  {
    forall i :: 0 <= i < |s| ==> IsSpace(lang, s[i])
  }

  /**
   * Python's `s.strip()` / JavaScript's `s.trim()`: whitespace is cut from the
   * front, then from the back (see `TrimSpec`).
   */
  function Trim(lang: Lang, s: string): (r: string)
    ensures |r| <= |s|
    decreases |s|
  {
    if s == [] then []
    else if IsSpace(lang, s[0]) then Trim(lang, s[1..])
    else if IsSpace(lang, s[|s| - 1]) then Trim(lang, s[..|s| - 1])
    else s
  }

  /** Where `Trim` starts cutting: the number of leading whitespace characters. */
  function TrimOffset(lang: Lang, s: string): (a: nat)
    ensures a <= |s|
  {
    if s != [] && IsSpace(lang, s[0]) then 1 + TrimOffset(lang, s[1..]) else 0
  }

  /** A whitespace character followed by whitespace is whitespace. */
  lemma BlankCons(lang: Lang, s: string)
    requires s != [] && IsSpace(lang, s[0]) && Blank(lang, s[1..])
    ensures Blank(lang, s)
  {
    assert forall i :: 1 <= i < |s| ==> s[i] == s[1..][i - 1];
  }

  /** Whitespace followed by a whitespace character is whitespace. */
  lemma BlankSnoc(lang: Lang, s: string)
    requires s != [] && IsSpace(lang, s[|s| - 1]) && Blank(lang, s[..|s| - 1])
    ensures Blank(lang, s)
  {
    assert forall i :: 0 <= i < |s| - 1 ==> s[i] == s[..|s| - 1][i];
  }

  /** `r` is `s` without its first `a` characters and some more at the end, all cut characters whitespace, `r` without whitespace at its ends. */
  predicate Trimmed(lang: Lang, s: string, a: nat, r: string)
  {
    a + |r| <= |s| && r == s[a..a + |r|]
    && Blank(lang, s[..a]) && Blank(lang, s[a + |r|..])
    && (r == [] || (!IsSpace(lang, r[0]) && !IsSpace(lang, r[|r| - 1])))
  }

  lemma TrimmedFront(lang: Lang, s: string, a: nat, r: string)
    requires s != [] && IsSpace(lang, s[0]) && Trimmed(lang, s[1..], a, r)
    ensures Trimmed(lang, s, a + 1, r)
  {
    var t := s[1..];
    assert s[1 + a..1 + a + |r|] == t[a..a + |r|];
    assert s[..1 + a][1..] == t[..a];
    BlankCons(lang, s[..1 + a]);
    assert s[1 + a + |r|..] == t[a + |r|..];
  }

  lemma TrimmedBack(lang: Lang, s: string, r: string)
    requires s != [] && IsSpace(lang, s[|s| - 1]) && Trimmed(lang, s[..|s| - 1], 0, r)
    ensures Trimmed(lang, s, 0, r)
  {
    var t := s[..|s| - 1];
    assert s[..|r|] == t[..|r|];
    assert s[|r|..][..|s| - 1 - |r|] == t[|r|..];
    BlankSnoc(lang, s[|r|..]);
  }

  /**
   * Trimming keeps the slice of `s` between its leading and its trailing
   * whitespace: what is cut on either side is whitespace, and what is kept
   * neither starts nor ends with whitespace.
   */
  lemma {:induction false} TrimSpec(lang: Lang, s: string)
    ensures Trimmed(lang, s, TrimOffset(lang, s), Trim(lang, s))
    decreases |s|
  {
    if s == [] {
      assert s[..0] == [] && s[0..] == [];
    } else if IsSpace(lang, s[0]) {
      TrimSpec(lang, s[1..]);
      TrimmedFront(lang, s, TrimOffset(lang, s[1..]), Trim(lang, s[1..]));
    } else if IsSpace(lang, s[|s| - 1]) {
      var t := s[..|s| - 1];
      TrimSpec(lang, t);
      assert t[0] == s[0];
      TrimmedBack(lang, s, Trim(lang, t));
    } else {
      assert s[..0] == [];
      assert s[|s|..] == [];
    }
  }

  /** Trimming gives the empty string exactly when the input is all whitespace. */
  lemma {:induction false} TrimEmptyIffBlank(lang: Lang, s: string)
    ensures Trim(lang, s) == [] <==> Blank(lang, s)
    decreases |s|
  {
    if s == [] {
    } else if IsSpace(lang, s[0]) {
      TrimEmptyIffBlank(lang, s[1..]);
      if Blank(lang, s[1..]) {
        BlankCons(lang, s);
      } else {
        assert forall i :: 1 <= i < |s| ==> s[i] == s[1..][i - 1];
      }
    } else if IsSpace(lang, s[|s| - 1]) {
      var t := s[..|s| - 1];
      TrimEmptyIffBlank(lang, t);
      assert t[0] == s[0];
    }
  }

  /** Trimming twice trims nothing more. */
  lemma TrimIdempotent(lang: Lang, s: string)
    ensures Trim(lang, Trim(lang, s)) == Trim(lang, s)
  {
    TrimSpec(lang, s);
  }

  /** `p` occurs in `s` at index `i`. */
  predicate StartsAt(s: string, i: nat, p: string)
  {
    i + |p| <= |s| && s[i..i + |p|] == p
  }

  /** An occurrence inside a slice is one in the whole text. */
  lemma StartsAtSlice(s: string, p: nat, q: nat, k: nat, m: string)
    requires p <= q <= |s| && StartsAt(s[p..q], k, m)
    ensures StartsAt(s, p + k, m)
  {
    var t := s[p..q];
    forall i | 0 <= i < |m| ensures s[p + k..p + k + |m|][i] == m[i] {
      assert t[k..k + |m|][i] == m[i];
    }
  }

  /** An occurrence of `p` begins with the first character of `p`. */
  lemma StartsAtFirst(s: string, i: nat, p: string)
    ensures StartsAt(s, i, p) && p != [] ==> s[i] == p[0]
  {
    if StartsAt(s, i, p) && p != [] {
      assert s[i..i + |p|][0] == s[i];
    }
  }

  /** The first `j >= i` at which `sep` occurs in `s`, or `|s|` when there is none. */
  function IndexOf(s: string, sep: string, i: nat): (j: nat)
    requires i <= |s|
    ensures i <= j <= |s|
    ensures j < |s| ==> StartsAt(s, j, sep)
    ensures forall k :: i <= k < j ==> !StartsAt(s, k, sep)
    decreases |s| - i
  {
    if i == |s| then |s|
    else if StartsAt(s, i, sep) then i
    else IndexOf(s, sep, i + 1)
  }

  /** `s.split(sep)` for a literal, non-empty separator (the same in Python and JavaScript). */
  function Split(s: string, sep: string): (parts: seq<string>)
    requires sep != []
    ensures |parts| >= 1
    decreases |s|
  {
    var k := IndexOf(s, sep, 0);
    if k == |s| then [s] else [s[..k]] + Split(s[k + |sep|..], sep)
  }

  /** `sep.join(parts)`. */
  function Join(parts: seq<string>, sep: string): string
  {
    if parts == [] then []
    else if |parts| == 1 then parts[0]
    else parts[0] + sep + Join(parts[1..], sep)
  }

  /** `s` contains no occurrence of `p`. */
  predicate Free(s: string, p: string)
  {
    forall k :: 0 <= k <= |s| ==> !StartsAt(s, k, p)
  }

  /** Joining the pieces of a split with the same separator restores the text. */
  lemma {:induction false} JoinSplit(s: string, sep: string)
    requires sep != []
    ensures Join(Split(s, sep), sep) == s
    decreases |s|
  {
    var k := IndexOf(s, sep, 0);
    if k < |s| {
      var rest := s[k + |sep|..];
      JoinSplit(rest, sep);
      JoinCons(s[..k], Split(rest, sep), sep);
      SplitAround(s, sep, k);
    }
  }

  lemma JoinCons(a: string, rest: seq<string>, sep: string)
    requires rest != []
    ensures Join([a] + rest, sep) == a + sep + Join(rest, sep)
  {
    assert ([a] + rest)[1..] == rest;
  }

  /** An occurrence of `sep` at `k` splits `s` into the text before, `sep` and the text after. */
  lemma SplitAround(s: string, sep: string, k: nat)
    requires StartsAt(s, k, sep)
    ensures s == s[..k] + sep + s[k + |sep|..]
  {
    assert s == s[..k] + s[k..k + |sep|] + s[k + |sep|..];
  }

  /** No piece of a split contains the separator. */
  lemma {:induction false} SplitPiecesFree(s: string, sep: string)
    requires sep != []
    ensures forall j :: 0 <= j < |Split(s, sep)| ==> Free(Split(s, sep)[j], sep)
    decreases |s|
  {
    var k := IndexOf(s, sep, 0);
    if k == |s| {
      forall m | 0 <= m <= |s| ensures !StartsAt(s, m, sep) {
        if m >= |s| { assert !(m + |sep| <= |s|); }
      }
    } else {
      var head := s[..k];
      forall m | 0 <= m <= |head| ensures !StartsAt(head, m, sep) {
        if StartsAt(head, m, sep) {
          assert head[m..m + |sep|] == s[m..m + |sep|];
          assert StartsAt(s, m, sep);
        }
      }
      SplitPiecesFree(s[k + |sep|..], sep);
    }
  }

  /** The character a JavaScript template literal reads back from `\\`. */
  const Backslash: char := '\\'

  /** Python's `s.replace('\\', '\\\\')`: every backslash doubled. */
  function Escape(s: string): (r: string)
    ensures |r| >= |s|
  {
    if s == [] then []
    else (if s[0] == Backslash then [Backslash, Backslash] else [s[0]]) + Escape(s[1..])
  }

  /** Reading `\\` inside a template literal back as one backslash; other characters are kept. */
  function Unescape(s: string): (r: string)
    decreases |s|
  {
    if s == [] then []
    else if |s| >= 2 && s[0] == Backslash && s[1] == Backslash then [Backslash] + Unescape(s[2..])
    else [s[0]] + Unescape(s[1..])
  }

  /** Halving the doubled backslashes recovers the original text. */
  lemma {:induction false} UnescapeEscape(s: string)
    ensures Unescape(Escape(s)) == s
  {
    if s != [] {
      UnescapeEscape(s[1..]);
      var e := Escape(s[1..]);
      if s[0] == Backslash {
        assert Escape(s) == [Backslash, Backslash] + e;
        assert (Escape(s))[2..] == e;
      } else {
        assert Escape(s) == [s[0]] + e;
        assert (Escape(s))[1..] == e;
      }
      assert s == [s[0]] + s[1..];
    }
  }

  /** Escaping leaves text without backslashes unchanged. */
  lemma {:induction false} EscapeNoBackslash(s: string)
    requires forall i :: 0 <= i < |s| ==> s[i] != Backslash
    ensures Escape(s) == s
  {
    if s != [] {
      EscapeNoBackslash(s[1..]);
      assert s == [s[0]] + s[1..];
    }
  }

  // ----- decimal numerals for the numbered keys -----

  predicate IsDigit(c: char) { '0' <= c <= '9' }

  function DigitChar(d: nat): (c: char)
    requires d < 10
    ensures IsDigit(c)
  {
    ['0', '1', '2', '3', '4', '5', '6', '7', '8', '9'][d]
  }

  function DigitValue(c: char): nat
    requires IsDigit(c)
  {
    (c as int - '0' as int) as nat
  }

  /** Python's `str(n)` / a JavaScript template `${n}` for a natural number. */
  function NatStr(n: nat): (s: string)
    ensures s != []
    ensures forall i :: 0 <= i < |s| ==> IsDigit(s[i])
  {
    if n < 10 then [DigitChar(n)] else NatStr(n / 10) + [DigitChar(n % 10)]
  }

  /** Python's `int(s)` restricted to plain digit strings; any other text raises, modelled as None. */
  function ParseNat(s: string): Option<nat>
  {
    if s == [] || exists i :: 0 <= i < |s| && !IsDigit(s[i]) then None
    else Some(DigitsValue(s))
  }

  function DigitsValue(s: string): nat
    requires forall i :: 0 <= i < |s| ==> IsDigit(s[i])
  {
    if s == [] then 0 else DigitsValue(s[..|s| - 1]) * 10 + DigitValue(s[|s| - 1])
  }

  /** Reading a rendered number back gives the number. */
  lemma {:induction false} ParseNatStr(n: nat)
    ensures ParseNat(NatStr(n)) == Some(n)
  {
    DigitsNatStr(n);
  }

  lemma {:induction false} DigitsNatStr(n: nat)
    ensures DigitsValue(NatStr(n)) == n
  {
    var s := NatStr(n);
    if n < 10 {
      assert DigitValue(DigitChar(n)) == n;
    } else {
      DigitsNatStr(n / 10);
      assert s[..|s| - 1] == NatStr(n / 10);
      assert DigitValue(DigitChar(n % 10)) == n % 10;
    }
  }

  /** Distinct numbers render differently, so numbered keys never collide. */
  lemma NatStrInjective(m: nat, n: nat)
    ensures NatStr(m) == NatStr(n) ==> m == n
  {
    if NatStr(m) == NatStr(n) {
      ParseNatStr(m);
      ParseNatStr(n);
    }
  }
}
