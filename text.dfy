/**
 * Character classes and the string operations of the scraper: Python's
 * `strip()`, the `\s+` whitespace collapse, the non-ASCII removal of
 * `clean_text`, ASCII case mapping, substring tests and decimal rendering.
 */
module Text {
  import opened Seqs

  /** Python's `str.isspace()`, which is also the class `\s` matches on str
      and the set `strip()` removes: the ASCII controls 9-13 and 28-31, the
      space, U+0085, U+00A0, U+1680, U+2000-U+200A, U+2028, U+2029, U+202F,
      U+205F and U+3000. */
  predicate IsSpace(c: char)
  {
    var n := c as int;
    (9 <= n <= 13) || (28 <= n <= 32) || n == 0x85 || n == 0xA0 || n == 0x1680
    || (0x2000 <= n <= 0x200A) || n == 0x2028 || n == 0x2029 || n == 0x202F
    || n == 0x205F || n == 0x3000
  }

  predicate IsAscii(c: char)
  {
    c as int < 0x80
  }

  predicate AllAscii(s: string)
  {
    forall i :: 0 <= i < |s| ==> IsAscii(s[i])
  }

  predicate IsDigit(c: char)
  {
    '0' <= c <= '9'
  }

  function LowerChar(c: char): char
  {
    if 'A' <= c <= 'Z' then (c as int + 32) as char else c
  }

  function UpperChar(c: char): char
  {
    if 'a' <= c <= 'z' then (c as int - 32) as char else c
  }

  /** `str.lower()` restricted to the ASCII letters. */
  function Lower(s: string): (r: string)
    ensures |r| == |s|
    ensures forall i :: 0 <= i < |s| ==> r[i] == LowerChar(s[i])
  {
    seq(|s|, i requires 0 <= i < |s| => LowerChar(s[i]))
  }

  /** `str.upper()` restricted to the ASCII letters. */
  function Upper(s: string): (r: string)
    ensures |r| == |s|
    ensures forall i :: 0 <= i < |s| ==> r[i] == UpperChar(s[i])
  {
    seq(|s|, i requires 0 <= i < |s| => UpperChar(s[i]))
  }

  /** Python's `sub in s`. */
  predicate Contains(s: string, sub: string)
    decreases |s|
  {
    sub <= s || (s != [] && Contains(s[1..], sub))
  }

  /** Python's `any(sub in s for sub in subs)`. */
  predicate ContainsAny(s: string, subs: seq<string>)
  {
    subs != [] && (Contains(s, subs[0]) || ContainsAny(s, subs[1..]))
  }

  /** `ContainsAny` holds iff some listed substring occurs. */
  lemma {:induction false} ContainsAnyMembers(s: string, subs: seq<string>)
    ensures ContainsAny(s, subs) <==> exists i :: 0 <= i < |subs| && Contains(s, subs[i])
  {
    if subs != [] {
      ContainsAnyMembers(s, subs[1..]);
      if exists i :: 0 <= i < |subs| && Contains(s, subs[i]) {
        var i :| 0 <= i < |subs| && Contains(s, subs[i]);
        if i > 0 {
          assert subs[1..][i - 1] == subs[i];
        }
      }
    }
  }

  /** `s[i..i + |sub|] == sub` for some `i` is what `Contains` means. */
  lemma {:induction false} ContainsAt(s: string, sub: string, i: nat)
    requires i + |sub| <= |s| && s[i..i + |sub|] == sub
    ensures Contains(s, sub)
  {
    if i > 0 {
      assert s[1..][i - 1..i - 1 + |sub|] == sub;
      ContainsAt(s[1..], sub, i - 1);
    }
  }

  /** A string containing `sub` also contains it after anything is put in front or behind. */
  lemma {:induction false} ContainsInContext(a: string, s: string, b: string, sub: string)
    requires Contains(s, sub)
    ensures Contains(a + s + b, sub)
  {
    var i := ContainsWitness(s, sub);
    assert (a + s + b)[|a| + i..|a| + i + |sub|] == s[i..i + |sub|];
    ContainsAt(a + s + b, sub, |a| + i);
  }

  /** The position of an occurrence of `sub` in `s`. */
  lemma {:induction false} ContainsWitness(s: string, sub: string) returns (i: nat)
    requires Contains(s, sub)
    ensures i + |sub| <= |s| && s[i..i + |sub|] == sub
    decreases |s|
  {
    if sub <= s {
      i := 0;
    } else {
      var j := ContainsWitness(s[1..], sub);
      assert s[1..][j..j + |sub|] == s[j + 1..j + 1 + |sub|];
      i := j + 1;
    }
  }

  /** A text containing `sub` contains each of its characters. */
  lemma ContainsChar(s: string, sub: string, k: nat)
    requires k < |sub|
    ensures Contains(s, sub) ==> exists j :: 0 <= j < |s| && s[j] == sub[k]
  {
    if Contains(s, sub) {
      var i := ContainsWitness(s, sub);
      assert s[i..i + |sub|][k] == s[i + k];
    }
  }

  /** A text in which some character of `sub` never occurs does not contain `sub`. */
  lemma NotContainsMissingChar(s: string, sub: string, k: nat)
    requires k < |sub|
    requires forall i :: 0 <= i < |s| ==> s[i] != sub[k]
    ensures !Contains(s, sub)
  {
    ContainsChar(s, sub, k);
  }

  /** `s.lstrip()`. */
  function TrimLeft(s: string): (r: string)
    ensures |r| <= |s| && r == s[|s| - |r|..]
    ensures r == [] || !IsSpace(r[0])
    ensures forall i :: 0 <= i < |s| - |r| ==> IsSpace(s[i])
    decreases |s|
  {
    if s != [] && IsSpace(s[0]) then TrimLeft(s[1..]) else s
  }

  /** `s.rstrip()`. */
  function TrimRight(s: string): (r: string)
    ensures |r| <= |s| && r == s[..|r|]
    ensures r == [] || !IsSpace(r[|r| - 1])
    ensures forall i :: |r| <= i < |s| ==> IsSpace(s[i])
    decreases |s|
  {
    if s != [] && IsSpace(s[|s| - 1]) then TrimRight(s[..|s| - 1]) else s
  }

  /** `s.strip()`. */
  function Strip(s: string): (r: string)
    ensures |r| <= |s|
    ensures r == [] || (!IsSpace(r[0]) && !IsSpace(r[|r| - 1]))
    ensures forall i :: 0 <= i < |r| ==> r[i] in s
  {
    var t := TrimLeft(s);
    var r := TrimRight(t);
    InnerSlice(s, t, r);
    r
  }

  /** `strip()` cuts whitespace, and only whitespace, off both ends: its
      result is a slice of `s` with nothing but whitespace around it. */
  lemma StripIsSlice(s: string)
    ensures
      exists i, j :: 0 <= i <= j <= |s| && Strip(s) == s[i..j]
        && (forall k :: 0 <= k < i ==> IsSpace(s[k])) && (forall k :: j <= k < |s| ==> IsSpace(s[k]))
  {
    var t := TrimLeft(s);
    InnerSlice(s, t, TrimRight(t));
  }

  /** A prefix of a suffix of `s`, with only whitespace cut off, is a slice
      of `s` with only whitespace around it. */
  lemma InnerSlice(s: string, t: string, r: string)
    requires |t| <= |s| && t == s[|s| - |t|..] && forall k :: 0 <= k < |s| - |t| ==> IsSpace(s[k])
    requires |r| <= |t| && r == t[..|r|] && forall k :: |r| <= k < |t| ==> IsSpace(t[k])
    ensures forall i :: 0 <= i < |r| ==> r[i] in s
    ensures
      exists i, j :: 0 <= i <= j <= |s| && r == s[i..j]
        && (forall k :: 0 <= k < i ==> IsSpace(s[k])) && (forall k :: j <= k < |s| ==> IsSpace(s[k]))
  {
    var i := |s| - |t|;
    var j := i + |r|;
    forall m | 0 <= m < |r|
      ensures r[m] in s
    {
      assert r[m] == s[i + m];
    }
    assert r == s[i..j];
    forall k | j <= k < |s|
      ensures IsSpace(s[k])
    {
      assert s[k] == t[k - i];
    }
  }

  /** Every whitespace character is a plain space and is not followed by another one. */
  predicate SingleSpaced(t: string)
  {
    && (forall i :: 0 <= i < |t| && IsSpace(t[i]) ==> t[i] == ' ')
    && (forall i, j :: 0 <= i < |t| && 0 <= j < |t| && j == i + 1 ==> !(IsSpace(t[i]) && IsSpace(t[j])))
  }

  /** Single-spaced, with no whitespace at either end. */
  predicate Normalized(t: string)
  {
    SingleSpaced(t) && (t != [] ==> !IsSpace(t[0]) && !IsSpace(t[|t| - 1]))
  }

  /** `re.sub(r'\s+', ' ', s)`: every maximal run of whitespace becomes one space. */
  function CollapseSpaces(s: string): (r: string)
    ensures |r| <= |s|
    ensures s != [] && !IsSpace(s[0]) ==> r != [] && r[0] == s[0]
    decreases |s|
  {
    if s == [] then []
    else if IsSpace(s[0]) then [' '] + CollapseSpaces(TrimLeft(s))
    else [s[0]] + CollapseSpaces(s[1..])
  }

  /** The collapse leaves no whitespace other than single spaces. */
  lemma {:induction false} CollapseSpacesSingleSpaced(s: string)
    ensures SingleSpaced(CollapseSpaces(s))
    decreases |s|
  {
    if s != [] {
      if IsSpace(s[0]) {
        CollapseSpacesSingleSpaced(TrimLeft(s));
      } else {
        CollapseSpacesSingleSpaced(s[1..]);
      }
    }
  }

  /** The collapse only introduces spaces: every other character comes from `s`. */
  lemma {:induction false} CollapseSpacesChars(s: string)
    ensures forall i :: 0 <= i < |CollapseSpaces(s)| ==> CollapseSpaces(s)[i] == ' ' || CollapseSpaces(s)[i] in s
    decreases |s|
  {
    if s != [] {
      if IsSpace(s[0]) {
        var t := TrimLeft(s);
        CollapseSpacesChars(t);
        assert forall c :: c in t ==> c in s;
      } else {
        CollapseSpacesChars(s[1..]);
        assert forall c :: c in s[1..] ==> c in s;
      }
    }
  }

  /** A text ending in a non-space keeps that last character. */
  lemma {:induction false} CollapseSpacesLast(s: string)
    ensures s != [] && !IsSpace(s[|s| - 1]) ==>
      CollapseSpaces(s) != [] && CollapseSpaces(s)[|CollapseSpaces(s)| - 1] == s[|s| - 1]
    decreases |s|
  {
    if s == [] || IsSpace(s[|s| - 1]) {
    } else if IsSpace(s[0]) {
      var t := TrimLeft(s);
      assert t != [] && t[|t| - 1] == s[|s| - 1];
      CollapseSpacesLast(t);
    } else if |s| > 1 {
      CollapseSpacesLast(s[1..]);
    }
  }

  /** Any character but whitespace. */
  predicate NonSpace(c: char)
  {
    !IsSpace(c)
  }

  /** An ASCII character other than whitespace. */
  predicate AsciiNonSpace(c: char)
  {
    IsAscii(c) && !IsSpace(c)
  }

  /** Leading whitespace holds no non-space character. */
  lemma TrimLeftKeepsWords(s: string)
    ensures Filter(TrimLeft(s), NonSpace) == Filter(s, NonSpace)
  {
    FilterDropFailingPrefix(s, |s| - |TrimLeft(s)|, NonSpace);
  }

  /** Collapsing whitespace runs keeps the non-space characters, in order. */
  lemma {:induction false} CollapseKeepsWords(s: string)
    ensures Filter(CollapseSpaces(s), NonSpace) == Filter(s, NonSpace)
    decreases |s|
  {
    if s != [] {
      if IsSpace(s[0]) {
        assert |TrimLeft(s)| < |s|;
        CollapseKeepsWords(TrimLeft(s));
        CollapseRunStep(s);
      } else {
        CollapseKeepsWords(s[1..]);
        CollapseWordStep(s);
      }
    }
  }

  /** A leading whitespace run collapses to one space, which the filter drops. */
  lemma CollapseRunStep(s: string)
    requires s != [] && IsSpace(s[0])
    requires Filter(CollapseSpaces(TrimLeft(s)), NonSpace) == Filter(TrimLeft(s), NonSpace)
    ensures Filter(CollapseSpaces(s), NonSpace) == Filter(s, NonSpace)
  {
    var c := CollapseSpaces(TrimLeft(s));
    assert CollapseSpaces(s) == [' '] + c;
    assert !NonSpace(' ');
    FilterCons(' ', c, NonSpace);
    TrimLeftKeepsWords(s);
  }

  /** A leading non-space character is kept by the collapse and by the filter. */
  lemma CollapseWordStep(s: string)
    requires s != [] && !IsSpace(s[0])
    requires Filter(CollapseSpaces(s[1..]), NonSpace) == Filter(s[1..], NonSpace)
    ensures Filter(CollapseSpaces(s), NonSpace) == Filter(s, NonSpace)
  {
    var c := CollapseSpaces(s[1..]);
    assert CollapseSpaces(s) == [s[0]] + c;
    FilterCons(s[0], c, NonSpace);
    FilterHead(s, NonSpace);
  }

  /** Trailing whitespace holds no non-space character. */
  lemma TrimRightKeepsWords(s: string)
    ensures Filter(TrimRight(s), NonSpace) == Filter(s, NonSpace)
  {
    var t := TrimRight(s);
    assert s == t + s[|t|..];
    FilterConcat(t, s[|t|..], NonSpace);
    FilterDropsAll(s[|t|..], NonSpace);
  }

  /** `strip()` keeps the non-space characters, in order. */
  lemma StripKeepsWords(s: string)
    ensures Filter(Strip(s), NonSpace) == Filter(s, NonSpace)
  {
    TrimLeftKeepsWords(s);
    TrimRightKeepsWords(TrimLeft(s));
  }

  /** `clean_text` (scraper/rainmeter_scraper.py:91-97): an empty text gives "";
      otherwise strip, collapse whitespace runs to one space, then drop every
      non-ASCII character. */
  function CleanText(s: string): (r: string)
    ensures AllAscii(r)
    ensures |r| <= |s|
    ensures s == "" ==> r == ""
    ensures AllAscii(s) ==> Normalized(r)
  {
    if s == "" then ""
    else
      var c := CollapseSpaces(Strip(s));
      StripCollapseNormalized(s);
      DropNonAsciiOfAscii(c);
      Filter(c, IsAscii)
  }

  /** Stripping and then collapsing an ASCII text leaves it normalised and ASCII. */
  lemma StripCollapseNormalized(s: string)
    ensures var c := CollapseSpaces(Strip(s));
      |c| <= |s| && (AllAscii(s) ==> AllAscii(c) && Normalized(c))
  {
    CollapseKeepsAscii(Strip(s), s);
    CollapseStrippedNormalized(Strip(s));
  }

  /** Collapsing adds no character other than a space. */
  lemma CollapseKeepsAscii(t: string, s: string)
    requires forall i :: 0 <= i < |t| ==> t[i] in s
    ensures AllAscii(s) ==> AllAscii(CollapseSpaces(t))
  {
    CollapseSpacesChars(t);
  }

  /** Collapsing a text with no whitespace at its ends normalises it. */
  lemma CollapseStrippedNormalized(t: string)
    requires t == [] || (!IsSpace(t[0]) && !IsSpace(t[|t| - 1]))
    ensures Normalized(CollapseSpaces(t))
  {
    CollapseSpacesSingleSpaced(t);
    CollapseSpacesLast(t);
  }


  lemma DropNonAsciiOfAscii(c: string)
    ensures AllAscii(c) ==> Filter(c, IsAscii) == c
  {
    if AllAscii(c) {
      FilterKeepsAll(c, IsAscii);
    }
  }

  /** Collapsing an already single-spaced text changes nothing. */
  lemma {:induction false} CollapseSingleSpaced(t: string)
    requires SingleSpaced(t)
    ensures CollapseSpaces(t) == t
    decreases |t|
  {
    if t != [] {
      SingleSpacedTail(t);
      CollapseSingleSpaced(t[1..]);
      CollapseHeadStep(t);
    }
  }

  /** One step of the collapse on a single-spaced text whose tail it keeps. */
  lemma CollapseHeadStep(t: string)
    requires t != [] && SingleSpaced(t)
    requires CollapseSpaces(t[1..]) == t[1..]
    ensures CollapseSpaces(t) == t
  {
    if IsSpace(t[0]) {
      if |t| > 1 {
        assert !(IsSpace(t[0]) && IsSpace(t[1]));
      }
      SpaceHeadCollapse(t);
    } else {
      assert t == [t[0]] + t[1..];
    }
  }

  /** A lone leading space survives the collapse unchanged. */
  lemma SpaceHeadCollapse(t: string)
    requires t != [] && t[0] == ' '
    requires |t| > 1 ==> !IsSpace(t[1])
    requires CollapseSpaces(t[1..]) == t[1..]
    ensures CollapseSpaces(t) == t
  {
    var u := t[1..];
    assert u == [] || !IsSpace(u[0]);
    assert TrimLeft(t) == TrimLeft(u) == u;
    assert t == [' '] + u;
  }

  /** Dropping the first character keeps a text single-spaced. */
  lemma SingleSpacedTail(t: string)
    requires t != [] && SingleSpaced(t)
    ensures SingleSpaced(t[1..])
  {
    assert forall i :: 0 <= i < |t| - 1 ==> t[1..][i] == t[i + 1];
  }

  function DigitChar(d: nat): (c: char)
    requires d < 10
    ensures IsDigit(c)
  {
    ('0' as int + d) as char
  }

  /** `str(n)` for a natural number. */
  function NatToString(n: nat): (s: string)
    ensures 1 <= |s|
    ensures forall i :: 0 <= i < |s| ==> IsDigit(s[i])
    ensures (n < 10) == (|s| == 1)
    decreases n
  {
    if n < 10 then [DigitChar(n)] else NatToString(n / 10) + [DigitChar(n % 10)]
  }

  /** Distinct numbers have distinct decimal renderings. */
  lemma {:induction false} NatToStringInjective(a: nat, b: nat)
    requires NatToString(a) == NatToString(b)
    ensures a == b
    decreases a
  {
    var s := NatToString(a);
    if a >= 10 {
      assert b >= 10;
      assert s[..|s| - 1] == NatToString(a / 10) == NatToString(b / 10);
      NatToStringInjective(a / 10, b / 10);
      assert DigitChar(a % 10) == DigitChar(b % 10);
    }
  }

  /** `sep.join(parts)`. */
  function JoinWith(parts: seq<string>, sep: string): (r: string)
    ensures parts == [] ==> r == ""
    ensures |parts| == 1 ==> r == parts[0]
  {
    if parts == [] then ""
    else if |parts| == 1 then parts[0]
    else JoinWith(parts[..|parts| - 1], sep) + sep + parts[|parts| - 1]
  }
}

/** What `clean_text` does and does not guarantee: idempotence holds on
    ASCII input only. */
module CleanTextProps {
  import opened Seqs
  import opened Text

  /** A normalized ASCII text is a fixed point of `clean_text`. */
  lemma CleanTextFixesNormalized(t: string)
    requires AllAscii(t) && Normalized(t)
    ensures CleanText(t) == t
  {
    if t != "" {
      assert TrimLeft(t) == t;
      assert TrimRight(t) == t;
      CollapseSingleSpaced(t);
      FilterKeepsAll(t, IsAscii);
    }
  }

  /** On ASCII input `clean_text` is idempotent. */
  lemma CleanTextIdempotentOnAscii(s: string)
    requires AllAscii(s)
    ensures CleanText(CleanText(s)) == CleanText(s)
  {
    CleanTextFixesNormalized(CleanText(s));
  }

  /** Apart from whitespace, `clean_text` keeps exactly the ASCII
      characters of its input, in order: with the spaces of the result
      and the whitespace of the input taken out, the two agree. */
  lemma CleanTextKeepsWords(s: string)
    ensures Filter(CleanText(s), NonSpace) == Filter(s, AsciiNonSpace)
  {
    if s != "" {
      var c := CollapseSpaces(Strip(s));
      StripKeepsWords(s);
      CollapseKeepsWords(Strip(s));
      FilterFilter(c, IsAscii, NonSpace, AsciiNonSpace);
      FilterFilter(c, NonSpace, IsAscii, AsciiNonSpace);
      FilterFilter(s, NonSpace, IsAscii, AsciiNonSpace);
    }
  }

  /** On non-ASCII input `clean_text` is not idempotent: dropping "é" after
      the collapse leaves two adjacent spaces, which a second pass collapses. */
  lemma CleanTextNotIdempotent()
    ensures CleanText("a é b") == "a  b"
    ensures CleanText("a  b") == "a b"
  {
    CleanAccentedExample();
    CleanDoubleSpaceExample();
  }

  /** A text with no whitespace at its ends is its own `strip()`. */
  lemma StripUnpadded(t: string)
    requires t != [] && !IsSpace(t[0]) && !IsSpace(t[|t| - 1])
    ensures Strip(t) == t
  {
    assert TrimLeft(t) == t;
    assert TrimRight(t) == t;
  }

  /** The two cleanings in `CleanTextNotIdempotent`, each computed one
      intermediate text at a time: the first "a é b", the second "a  b". */
  lemma CleanAccentedExample()
    ensures CleanText("a é b") == "a  b"
  {
    AccentedIsCollapsed();
    AccentedDropped();
  }

  lemma AccentedIsCollapsed()
    ensures CollapseSpaces(Strip("a é b")) == "a é b"
  {
    AccentedUnpadded();
    AccentedSingleSpaced();
    CollapseSingleSpaced("a é b");
  }

  lemma AccentedUnpadded()
    ensures Strip("a é b") == "a é b"
  {
    var e := "a é b";
    assert !IsSpace(e[0]) && !IsSpace(e[4]);
    StripUnpadded(e);
  }

  lemma AccentedSingleSpaced()
    ensures SingleSpaced("a é b")
  {
  }

  lemma AccentedDropped()
    ensures Filter("a é b", IsAscii) == "a  b"
  {
    AccentedPrefixDropped();
    FilterSnoc("a é", ' ', IsAscii);
    assert "a é" + [' '] == "a é ";
    FilterSnoc("a é ", 'b', IsAscii);
    assert "a é " + ['b'] == "a é b";
  }

  lemma AccentedPrefixDropped()
    ensures Filter("a é", IsAscii) == "a "
  {
    AsciiPrefixKept();
    FilterSnoc("a ", 'é', IsAscii);
    assert "a " + ['é'] == "a é";
  }

  lemma AsciiPrefixKept()
    ensures Filter("a ", IsAscii) == "a "
  {
    assert IsAscii("a "[0]) && IsAscii("a "[1]);
    FilterKeepsAll("a ", IsAscii);
  }

  lemma CleanDoubleSpaceExample()
    ensures CleanText("a  b") == "a b"
  {
    DoubleSpaceUnpadded();
    DoubleSpaceCollapsed();
    var c := "a b";
    assert IsAscii(c[0]) && IsAscii(c[1]) && IsAscii(c[2]);
    FilterKeepsAll(c, IsAscii);
  }

  lemma DoubleSpaceUnpadded()
    ensures Strip("a  b") == "a  b"
  {
    var d := "a  b";
    assert !IsSpace(d[0]) && !IsSpace(d[3]);
    StripUnpadded(d);
  }

  lemma DoubleSpaceCollapsed()
    ensures CollapseSpaces("a  b") == "a b"
  {
    assert "a  b"[1..] == "  b";
    SpacesBeforeLetterCollapsed();
    assert ['a'] + " b" == "a b";
  }

  lemma SpacesBeforeLetterCollapsed()
    ensures CollapseSpaces("  b") == " b"
  {
    SpacesBeforeLetterTrimmed();
    LetterCollapsed();
    assert [' '] + "b" == " b";
  }

  lemma SpacesBeforeLetterTrimmed()
    ensures TrimLeft("  b") == "b"
  {
    assert "  b"[1..] == " b";
    SpaceBeforeLetterTrimmed();
  }

  lemma SpaceBeforeLetterTrimmed()
    ensures TrimLeft(" b") == "b"
  {
    assert " b"[1..] == "b";
    assert TrimLeft("b") == "b";
  }

  lemma LetterCollapsed()
    ensures CollapseSpaces("b") == "b"
  {
    assert "b"[1..] == [];
  }

  /** A lone space cleans to "". */
  lemma CleanTextBlank()
    ensures CleanText(" ") == ""
  {
    assert " "[1..] == "";
    assert TrimLeft(" ") == "";
    assert Strip(" ") == "";
    assert CollapseSpaces("") == "";
  }

  /** A lone letter is left alone. */
  lemma CleanTextLetter()
    ensures CleanText("u") == "u"
  {
    assert Normalized("u");
    CleanTextFixesNormalized("u");
  }
}
