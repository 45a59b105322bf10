/**
 * `urllib.parse.urljoin(base, ref)` for the base URLs the scraper uses: an
 * origin such as "https://visualskins.com", with a lower-case scheme, a
 * host and no path, query or fragment.
 */
module Urls {
  import opened Text

  predicate IsAsciiLetter(c: char)
  {
    'a' <= c <= 'z' || 'A' <= c <= 'Z'
  }

  /** Characters `urlsplit` accepts in a scheme. */
  predicate IsSchemeChar(c: char)
  {
    IsAsciiLetter(c) || IsDigit(c) || c == '+' || c == '-' || c == '.'
  }

  /** The rest of a scheme: scheme characters up to the first ':'. */
  predicate SchemeTail(t: string)
  {
    t != [] && (t[0] == ':' || (IsSchemeChar(t[0]) && SchemeTail(t[1..])))
  }

  /** `ref` starts with a scheme (a letter, scheme characters, then ':'), as `urlsplit` decides. */
  predicate HasScheme(ref: string)
  {
    ref != [] && IsAsciiLetter(ref[0]) && SchemeTail(ref[1..])
  }

  /** Index of the ':' that ends a scheme tail. */
  function ColonIndex(t: string): (j: nat)
    requires SchemeTail(t)
    ensures j < |t| && t[j] == ':'
    ensures forall k :: 0 <= k < j ==> IsSchemeChar(t[k])
  {
    if t[0] == ':' then 0 else 1 + ColonIndex(t[1..])
  }

  /** Index of the ':' after the scheme of `ref`. */
  function SchemeEnd(ref: string): (i: nat)
    requires HasScheme(ref)
    ensures 0 < i < |ref| && ref[i] == ':'
  {
    1 + ColonIndex(ref[1..])
  }

  /** The text of `base` before its first ':'. */
  function SchemeOf(base: string): (r: string)
    ensures |r| <= |base|
  {
    if base == [] || base[0] == ':' then [] else [base[0]] + SchemeOf(base[1..])
  }

  /** Index of the first character of `s` at or after `i` that is one of `delims`, or |s|. */
  function FindFrom(s: string, i: nat, delims: string): (j: nat)
    requires i <= |s|
    ensures i <= j <= |s|
    decreases |s| - i
  {
    if i == |s| || s[i] in delims then i else FindFrom(s, i + 1, delims)
  }

  /** `FindFrom` stops at the first delimiter at or after `i`. */
  lemma {:induction false} FindFromFirst(s: string, i: nat, delims: string)
    requires i <= |s|
    ensures var j := FindFrom(s, i, delims);
      (j < |s| ==> s[j] in delims) && forall k :: i <= k < j ==> s[k] !in delims
    decreases |s| - i
  {
    if i < |s| && s[i] !in delims {
      FindFromFirst(s, i + 1, delims);
    }
  }

  /** The index just after the last '/' of `s`, or 0 when there is none. */
  function AfterLastSlash(s: string): (k: nat)
    ensures k <= |s|
  {
    if s == [] then 0 else if s[|s| - 1] == '/' then |s| else AfterLastSlash(s[..|s| - 1])
  }

  /** `AfterLastSlash` follows the last '/'. */
  lemma {:induction false} AfterLastSlashLast(s: string)
    ensures var k := AfterLastSlash(s);
      (k > 0 ==> s[k - 1] == '/') && forall m :: k <= m < |s| ==> s[m] != '/'
  {
    if s != [] && s[|s| - 1] != '/' {
      var t := s[..|s| - 1];
      AfterLastSlashLast(t);
      assert forall m :: 0 <= m < |t| ==> t[m] == s[m];
    }
  }

  /** `t` starts with "//": a network-path reference. */
  predicate IsNetworkPath(t: string)
  {
    |t| >= 2 && t[0] == '/' && t[1] == '/'
  }

  /** `p` starts with '/'. */
  predicate IsRooted(p: string)
  {
    p != [] && p[0] == '/'
  }

  /** What `urlparse` finds after the network location. */
  datatype Parts = Parts(path: string, params: string, query: string, fragment: string)

  /**
   * `urlparse` of the text after the network location: the fragment
   * follows the first '#', the query the first '?' before it, and the
   * parameters the first ';' after the last '/' of what remains.
   */
  function SplitRef(t: string): Parts
  {
    var h := FindFrom(t, 0, "#");
    var u := t[..h];
    var q := FindFrom(u, 0, "?");
    var v := u[..q];
    var c := FindFrom(v, AfterLastSlash(v), ";");
    Parts(v[..c], if c < |v| then v[c + 1..] else "",
          if q < |u| then u[q + 1..] else "", if h < |t| then t[h + 1..] else "")
  }

  /** `urlunparse` of the parts after the network location: an empty parameter list, query or fragment loses its marker. */
  function Unparse(p: Parts): string
  {
    p.path
    + (if p.params != "" then ";" + p.params else "")
    + (if p.query != "" then "?" + p.query else "")
    + (if p.fragment != "" then "#" + p.fragment else "")
  }

  /** The text after the network location as `urljoin` writes it back. */
  function Normalize(t: string): string
  {
    Unparse(SplitRef(t))
  }

  /** The base joined with a reference that has no network location of its own. */
  function JoinPath(base: string, t: string): string
  {
    var p := SplitRef(t);
    if (p.path == "" && p.params == "") || IsRooted(p.path) then base + Unparse(p)
    else base + "/" + Unparse(p)
  }

  /** The base joined with a reference whose scheme, if any, is the base's and has been removed. */
  function JoinReference(base: string, t: string): string
  {
    if IsNetworkPath(t) then
      var m := FindFrom(t, 2, "/?#");
      if m > 2 then SchemeOf(base) + "://" + t[2..m] + Normalize(t[m..]) else JoinPath(base, t[2..])
    else JoinPath(base, t)
  }

  /**
   * `urljoin(base, ref)`: an empty reference gives the base; a reference
   * with another scheme is returned as it is; otherwise the scheme (in any
   * case) is dropped, a network-path reference ("//host/...") takes the
   * base's scheme and replaces the host, and any other reference is put
   * below the base's host: a query or fragment is appended, an absolute
   * path replaces the (empty) base path, a relative path goes below the
   * root. Empty ';', '?' and '#' markers are dropped on the way.
   */
  function Join(base: string, ref: string): string
  {
    if ref == [] then base
    else if HasScheme(ref) then
      var i := SchemeEnd(ref);
      if Lower(ref[..i]) == SchemeOf(base) then JoinReference(base, ref[i + 1..]) else ref
    else JoinReference(base, ref)
  }

  /** One of the markers `urlparse` splits at. */
  predicate IsMarker(c: char)
  {
    c == '#' || c == '?' || c == ';'
  }

  /** Text without any marker. */
  predicate Plain(t: string)
  {
    forall k :: 0 <= k < |t| ==> !IsMarker(t[k])
  }

  /** The first index at or after `i` of a delimiter, characterised without recursion. */
  lemma FindFromAt(s: string, i: nat, delims: string, j: nat)
    requires i <= j <= |s|
    requires j < |s| ==> s[j] in delims
    requires forall k :: i <= k < j ==> s[k] !in delims
    ensures FindFrom(s, i, delims) == j
  {
    FindFromFirst(s, i, delims);
  }

  /** Text without markers is all path, and is written back unchanged. */
  lemma NormalizePlain(t: string)
    requires Plain(t)
    ensures SplitRef(t) == Parts(t, "", "", "")
    ensures Normalize(t) == t
  {
    FindFromAt(t, 0, "#", |t|);
    assert t[..|t|] == t;
    FindFromAt(t, 0, "?", |t|);
    FindFromAt(t, AfterLastSlash(t), ";", |t|);
  }

  /** A plain path with a non-empty plain query is written back unchanged. */
  lemma NormalizeQuery(x: string, y: string)
    requires Plain(x) && Plain(y) && y != ""
    ensures SplitRef(x + "?" + y) == Parts(x, "", y, "")
    ensures Normalize(x + "?" + y) == x + "?" + y
  {
    var t := x + "?" + y;
    FindFromAt(t, 0, "#", |t|);
    assert t[..|t|] == t;
    FindFromAt(t, 0, "?", |x|);
    assert t[..|x|] == x && t[|x| + 1..] == y;
    FindFromAt(x, AfterLastSlash(x), ";", |x|);
  }

  /** An empty fragment marker is dropped: the parts are those of the text without it. */
  lemma SplitEmptyFragment(t: string)
    requires '#' !in t
    ensures SplitRef(t + "#") == SplitRef(t)
  {
    FindFromAt(t + "#", 0, "#", |t|);
    assert (t + "#")[..|t|] == t;
    FindFromAt(t, 0, "#", |t|);
    assert t[..|t|] == t;
  }

  /** An empty query marker is dropped in the same way. */
  lemma SplitEmptyQuery(t: string)
    requires '#' !in t && '?' !in t
    ensures SplitRef(t + "?") == SplitRef(t)
  {
    var s := t + "?";
    FindFromAt(s, 0, "#", |s|);
    assert s[..|s|] == s;
    FindFromAt(s, 0, "?", |t|);
    assert s[..|t|] == t;
    FindFromAt(t, 0, "#", |t|);
    FindFromAt(t, 0, "?", |t|);
    assert t[..|t|] == t;
  }

  /** An empty parameter marker at the end of a plain path is dropped. */
  lemma SplitEmptyParams(t: string)
    requires Plain(t)
    ensures SplitRef(t + ";") == SplitRef(t)
  {
    var s := t + ";";
    FindFromAt(s, 0, "#", |s|);
    FindFromAt(s, 0, "?", |s|);
    assert s[..|s|] == s;
    assert AfterLastSlash(s) == AfterLastSlash(t) by {
      assert s[..|s| - 1] == t;
    }
    FindFromAt(s, AfterLastSlash(s), ";", |t|);
    assert s[..|t|] == t;
    NormalizePlain(t);
  }

  /** A scheme tail that still holds after a character that is neither ':' nor a scheme character held before it. */
  lemma {:induction false} SchemeTailBeforeStop(u: string, c: char)
    requires c != ':' && !IsSchemeChar(c)
    requires SchemeTail(u + [c])
    ensures SchemeTail(u)
    decreases |u|
  {
    var s := u + [c];
    if s[0] != ':' {
      assert u != [];
      assert s[1..] == u[1..] + [c];
      SchemeTailBeforeStop(u[1..], c);
    }
  }

  /** An empty fragment marker, or an empty query marker where there is no
      fragment, is dropped: the parts are those of the text without it. */
  lemma SplitEmptyMarker(t: string, c: char)
    requires c == '#' || c == '?'
    requires '#' !in t && (c == '?' ==> '?' !in t)
    ensures SplitRef(t + [c]) == SplitRef(t)
  {
    if c == '#' {
      SplitEmptyFragment(t);
    } else {
      SplitEmptyQuery(t);
    }
  }

  /** Appending a character other than '/' keeps a text from starting with "//". */
  lemma NotNetworkPathAppend(t: string, c: char)
    requires c != '/' && !IsNetworkPath(t)
    ensures !IsNetworkPath(t + [c])
  {
    var s := t + [c];
    if |t| == 1 {
      assert s[1] == c;
    } else if |t| >= 2 {
      assert s[0] == t[0] && s[1] == t[1];
    }
  }

  /** A character appended after a text starting with "//" does not move the end of its host when it is '#' or '?'. */
  lemma HostEndAppend(t: string, c: char)
    requires c == '#' || c == '?'
    requires IsNetworkPath(t)
    ensures IsNetworkPath(t + [c])
    ensures FindFrom(t + [c], 2, "/?#") == FindFrom(t, 2, "/?#")
  {
    assert (t + [c])[0] == t[0] && (t + [c])[1] == t[1];
    FindFromFirst(t, 2, "/?#");
    FindFromAt(t + [c], 2, "/?#", FindFrom(t, 2, "/?#"));
  }


  /** A network-path reference with a host takes the base's scheme and its own host. */
  lemma HostJoin(base: string, t: string, m: nat)
    requires IsNetworkPath(t) && m == FindFrom(t, 2, "/?#") && m > 2
    ensures JoinReference(base, t) == SchemeOf(base) + "://" + t[2..m] + Normalize(t[m..])
  {
  }

  /** An empty marker at the end of the text after the host makes no difference to how it is written back. */
  lemma NormalizeEmptyMarker(t: string, c: char)
    requires c == '#' || c == '?'
    requires '#' !in t && (c == '?' ==> '?' !in t)
    ensures Normalize(t + [c]) == Normalize(t)
  {
    SplitEmptyMarker(t, c);
  }

  /** Slicing `t + [c]` at `m` keeps `t`'s characters before `m` and moves `c` to the end of the rest. */
  lemma SnocSlices(t: string, c: char, i: nat, m: nat)
    requires i <= m <= |t|
    ensures (t + [c])[i..m] == t[i..m] && (t + [c])[m..] == t[m..] + [c]
  {
  }

  /** The same for a network-path reference with a host ("//host..."). */
  lemma HostEmptyMarker(base: string, t: string, c: char)
    requires c == '#' || c == '?'
    requires '#' !in t && (c == '?' ==> '?' !in t)
    requires IsNetworkPath(t) && FindFrom(t, 2, "/?#") > 2
    ensures JoinReference(base, t + [c]) == JoinReference(base, t)
  {
    var m := FindFrom(t, 2, "/?#");
    HostEndAppend(t, c);
    SnocSlices(t, c, 2, m);
    NormalizeEmptyMarker(t[m..], c);
    HostJoin(base, t, m);
    HostJoin(base, t + [c], m);
  }

  /** The same for a network-path reference with an empty host ("//", "///p"). */
  lemma NoHostEmptyMarker(base: string, t: string, c: char)
    requires c == '#' || c == '?'
    requires '#' !in t && (c == '?' ==> '?' !in t)
    requires IsNetworkPath(t) && FindFrom(t, 2, "/?#") == 2
    ensures JoinReference(base, t + [c]) == JoinReference(base, t)
  {
    HostEndAppend(t, c);
    SnocSlices(t, c, 2, 2);
    JoinPathEmptyMarker(base, t[2..], c);
    NoHostJoin(base, t);
    NoHostJoin(base, t + [c]);
  }

  /** A network-path reference with an empty host is joined as a path below the base. */
  lemma NoHostJoin(base: string, t: string)
    requires IsNetworkPath(t) && FindFrom(t, 2, "/?#") == 2
    ensures JoinReference(base, t) == JoinPath(base, t[2..])
  {
  }

  /** An empty fragment or query marker makes no difference to a path joined below the base. */
  lemma JoinPathEmptyMarker(base: string, t: string, c: char)
    requires c == '#' || c == '?'
    requires '#' !in t && (c == '?' ==> '?' !in t)
    ensures JoinPath(base, t + [c]) == JoinPath(base, t)
  {
    SplitEmptyMarker(t, c);
  }


  /** The same for a reference with its scheme removed. */
  lemma JoinReferenceEmptyMarker(base: string, t: string, c: char)
    requires c == '#' || c == '?'
    requires '#' !in t && (c == '?' ==> '?' !in t)
    ensures JoinReference(base, t + [c]) == JoinReference(base, t)
  {
    if IsNetworkPath(t) {
      if FindFrom(t, 2, "/?#") > 2 {
        HostEmptyMarker(base, t, c);
      } else {
        NoHostEmptyMarker(base, t, c);
      }
    } else {
      NotNetworkPathAppend(t, c);
      JoinPathEmptyMarker(base, t, c);
      LocalJoin(base, t);
      LocalJoin(base, t + [c]);
    }
  }

  /** A reference that is not a network path is joined as a path below the base. */
  lemma LocalJoin(base: string, t: string)
    requires !IsNetworkPath(t)
    ensures JoinReference(base, t) == JoinPath(base, t)
  {
  }

  /**
   * A trailing empty fragment marker makes no difference to the joined
   * URL, for a reference with no scheme: "/skin/x/#" joins like
   * "/skin/x/", and "#" alone gives the base.
   */
  lemma JoinEmptyFragment(base: string, t: string)
    requires '#' !in t && !HasScheme(t)
    ensures Join(base, t + "#") == Join(base, t)
  {
    JoinEmptyMarker(base, t, '#');
  }

  /** A trailing empty query marker makes no difference either: "?" alone gives the base. */
  lemma JoinEmptyQuery(base: string, t: string)
    requires '#' !in t && '?' !in t && !HasScheme(t)
    ensures Join(base, t + "?") == Join(base, t)
  {
    JoinEmptyMarker(base, t, '?');
  }

  lemma JoinEmptyMarker(base: string, t: string, c: char)
    requires c == '#' || c == '?'
    requires '#' !in t && (c == '?' ==> '?' !in t) && !HasScheme(t)
    ensures Join(base, t + [c]) == Join(base, t)
  {
    var s := t + [c];
    if t != [] && IsAsciiLetter(t[0]) {
      assert s[1..] == t[1..] + [c];
      if SchemeTail(s[1..]) {
        SchemeTailBeforeStop(t[1..], c);
      }
    }
    JoinReferenceEmptyMarker(base, t, c);
    if t == [] {
      SplitEmptyMarker(t, c);
    }
  }

  /** A trailing empty parameter marker after a plain path makes no difference: "x;" joins like "x", ";" alone gives the base. */
  lemma JoinEmptyParams(base: string, t: string)
    requires Plain(t) && !HasScheme(t) && !IsNetworkPath(t)
    ensures Join(base, t + ";") == Join(base, t)
  {
    var s := t + ";";
    if t != [] && IsAsciiLetter(t[0]) {
      assert s[1..] == t[1..] + [';'];
      if SchemeTail(s[1..]) {
        SchemeTailBeforeStop(t[1..], ';');
      }
    }
    NotNetworkPathAppend(t, ';');
    SplitEmptyParams(t);
  }

  /** Scheme characters followed by ':' form a scheme tail whose ':' is the one after them. */
  lemma {:induction false} SchemeTailOfWord(w: string, t: string)
    requires forall k :: 0 <= k < |w| ==> IsSchemeChar(w[k])
    ensures SchemeTail(w + ":" + t) && ColonIndex(w + ":" + t) == |w|
    decreases |w|
  {
    if w != [] {
      assert (w + ":" + t)[1..] == w[1..] + ":" + t;
      SchemeTailOfWord(w[1..], t);
    }
  }

  /**
   * Spelling out the base's own scheme, in any case, makes no difference:
   * "https:/skin/x" and "HTTPS://host/x" join like "/skin/x" and
   * "//host/x".
   */
  lemma JoinOwnScheme(base: string, u: string, t: string)
    requires u != [] && IsAsciiLetter(u[0]) && forall k :: 0 <= k < |u| ==> IsSchemeChar(u[k])
    requires Lower(u) == SchemeOf(base)
    requires !HasScheme(t)
    ensures Join(base, u + ":" + t) == Join(base, t)
  {
    OwnSchemeDropped(base, u, t);
    JoinWithoutScheme(base, t);
  }

  /** The base's own scheme is dropped before the rest is joined. */
  lemma OwnSchemeDropped(base: string, u: string, t: string)
    requires u != [] && IsAsciiLetter(u[0]) && forall k :: 0 <= k < |u| ==> IsSchemeChar(u[k])
    requires Lower(u) == SchemeOf(base)
    ensures Join(base, u + ":" + t) == JoinReference(base, t)
  {
    var r := u + ":" + t;
    assert r[1..] == u[1..] + ":" + t;
    SchemeTailOfWord(u[1..], t);
    assert r[..|u|] == u && r[|u| + 1..] == t;
  }

  /** A reference without a scheme is joined as it stands; the empty one gives the base. */
  lemma JoinWithoutScheme(base: string, t: string)
    requires !HasScheme(t)
    ensures Join(base, t) == JoinReference(base, t)
  {
    if t == [] {
      assert Plain(t);
      NormalizePlain(t);
      LocalJoin(base, t);
      assert base + Unparse(SplitRef(t)) == base;
    }
  }

  /** A path that starts with exactly one '/'. */
  predicate SingleSlash(e: string)
  {
    |e| >= 2 && e[0] == '/' && e[1] != '/'
  }

  /**
   * A path reference that starts with one '/' replaces the base's empty
   * path: it is appended to the base as `urlparse` and `urlunparse` write
   * it back, and unchanged when that leaves it as it was.
   */
  lemma JoinAbsolutePath(base: string, path: string)
    requires SingleSlash(path)
    ensures Join(base, path) == base + Normalize(path)
    ensures Normalize(path) == path ==> Join(base, path) == base + path
  {
    assert !IsAsciiLetter(path[0]);
    var h := FindFrom(path, 0, "#");
    var u := path[..h];
    var q := FindFrom(u, 0, "?");
    var v := u[..q];
    assert h > 0 && q > 0 && v[0] == '/';
    AfterLastSlashLast(v);
    assert AfterLastSlash(v) > 0;
    assert IsRooted(SplitRef(path).path);
  }
}
