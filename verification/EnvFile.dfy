/** The .env reader and rotator of scripts/security/_test_env_parser.py.

    The two regular expressions are modelled as a scanner.  Their header
    `^\s*(?:export\s+)?KEY\s*=` is deterministic once the key holds no white space
    and no `=`; the only backtracking that can matter is the one of `\s*` after `=`
    in the rotating expression, which `Backtrack` spells out. */
module EnvFile {
  import opened Prelude

  /** What `\s` matches in a Python str pattern, and what str.strip removes. */
  predicate Space(c: char) {
    var n := c as int;
    || 9 <= n <= 13 || 28 <= n <= 32 || n == 0x85 || n == 0xA0 || n == 0x1680
    || 0x2000 <= n <= 0x200A || n == 0x2028 || n == 0x2029
    || n == 0x202F || n == 0x205F || n == 0x3000
  }

  predicate Break(c: char) { c == '\r' || c == '\n' }

  predicate DoubleQuote(c: char) { c == '"' }

  predicate SingleQuote(c: char) { c == '\'' }

  /** Keys are looked up literally; names of environment variables are of this form. */
  predicate Key(k: string) {
    k != "" && forall i :: 0 <= i < |k| ==> !Space(k[i]) && k[i] != '='
  }

  predicate SingleLine(v: string) { forall i :: 0 <= i < |v| ==> !Break(v[i]) }

  predicate Blank(v: string) { forall i :: 0 <= i < |v| ==> Space(v[i]) }

  /** Every CR is the first half of a CRLF. */
  predicate NoLoneCR(s: string) {
    forall i :: 0 <= i < |s| && s[i] == '\r' ==> i + 1 < |s| && s[i + 1] == '\n'
  }

  // ---------------------------------------------------------------- scanner

  /** Length of the longest prefix matched by `\s*`. */
  function Spaces(s: string): (n: nat)
    ensures n <= |s|
    ensures forall i :: 0 <= i < n ==> Space(s[i])
    ensures n < |s| ==> !Space(s[n])
  {
    if s != "" && Space(s[0]) then 1 + Spaces(s[1..]) else 0
  }

  /** Length of the longest prefix matched by `[^\r\n]*`. */
  function Run(s: string): (n: nat)
    ensures n <= |s|
    ensures forall i :: 0 <= i < n ==> !Break(s[i])
    ensures n < |s| ==> Break(s[n])
  {
    if s != "" && !Break(s[0]) then 1 + Run(s[1..]) else 0
  }

  /** `KEY\s*=` at the front of s: the position after `=`. */
  function AfterKey(s: string, k: string): Option<nat> {
    if k <= s then
      var n := |k| + Spaces(s[|k|..]);
      if n < |s| && s[n] == '=' then Some(n + 1) else None
    else None
  }

  /** `export\s+KEY\s*=` at the front of s. */
  function Exported(s: string, k: string): Option<nat> {
    if "export" <= s then
      var w := Spaces(s[6..]);
      if w == 0 then None
      else
        match AfterKey(s[6 + w..], k)
        case Some(n) => Some(6 + w + n)
        case None => None
    else None
  }

  /** `\s*(?:export\s+)?KEY\s*=` at the front of s. */
  function Header(s: string, k: string): Option<nat> {
    var q := Spaces(s);
    match Exported(s[q..], k)
    case Some(n) => Some(q + n)
    case None =>
      match AfterKey(s[q..], k)
      case Some(n) => Some(q + n)
      case None => None
  }

  /** `(\r?)$` at the front of s, multi-line. */
  predicate EndsLine(s: string) {
    || s == ""
    || s[0] == '\n'
    || (s[0] == '\r' && (|s| == 1 || s[1] == '\n'))
  }

  /** `\s*` after `=` first takes everything up to x and then gives characters back
      until `[^\r\n]*(\r?)$` matches. */
  function Backtrack(s: string, h: nat, x: nat): (r: Option<nat>)
    requires h <= x <= |s|
    ensures r.Some? ==> h <= r.value <= x
    decreases x
  {
    if EndsLine(s[x + Run(s[x..])..]) then Some(x)
    else if x == h then None
    else Backtrack(s, h, x - 1)
  }

  lemma HeaderBounds(s: string, k: string)
    requires k != ""
    ensures Header(s, k).Some? ==> 1 < Header(s, k).value <= |s|
  {
    var q := Spaces(s);
    if Exported(s[q..], k).None? && AfterKey(s[q..], k).Some? {
      assert |s[q..]| == |s| - q;
    }
  }

  /** Where the rotating expression, matched at the front of s, starts the value. */
  function Site(s: string, k: string): (r: Option<nat>)
    requires k != ""
    ensures r.Some? ==> 1 < r.value <= |s|
  {
    HeaderBounds(s, k);
    match Header(s, k)
    case Some(h) => Backtrack(s, h, h + Spaces(s[h..]))
    case None => None
  }

  // -------------------------------------------------- str.strip and friends

  function Lstrip(s: string, p: char -> bool): string {
    if s != "" && p(s[0]) then Lstrip(s[1..], p) else s
  }

  function Rstrip(s: string, p: char -> bool): string {
    if s != "" && p(s[|s| - 1]) then Rstrip(s[..|s| - 1], p) else s
  }

  function Strip(s: string, p: char -> bool): string { Rstrip(Lstrip(s, p), p) }

  /** `.strip().strip('"').strip("'")`. */
  function Clean(s: string): string {
    Strip(Strip(Strip(s, Space), DoubleQuote), SingleQuote)
  }

  // ---------------------------------------------------- parse_value, rotate_key

  /** `re.search`: the first line start whose header matches. */
  function ParseFrom(s: string, bol: bool, k: string): Option<string>
    requires k != ""
  {
    if s == "" then None
    else if bol && Header(s, k).Some? then
      HeaderBounds(s, k);
      var h := Header(s, k).value;
      var w := h + Spaces(s[h..]);
      Some(Clean(s[w..w + Run(s[w..])]))
    else ParseFrom(s[1..], s[0] == '\n', k)
  }

  function ParseValue(content: string, k: string): Option<string>
    requires k != ""
  {
    ParseFrom(content, true, k)
  }

  /** `re.subn`: every non-overlapping match, left to right. */
  function Subst(s: string, bol: bool, k: string, v: string): string
    requires k != ""
    decreases |s|
  {
    if s == "" then ""
    else if bol && Site(s, k).Some? then
      var x := Site(s, k).value;
      var e := x + Run(s[x..]);
      s[..x] + v + Subst(s[e..], s[e - 1] == '\n', k, v)
    else [s[0]] + Subst(s[1..], s[0] == '\n', k, v)
  }

  predicate HasSite(s: string, bol: bool, k: string)
    requires k != ""
  {
    s != "" && ((bol && Site(s, k).Some?) || HasSite(s[1..], s[0] == '\n', k))
  }

  /** None is the RuntimeError raised when the key is not there.  A backslash in the
      new value would be read as a template escape. */
  function RotateKey(content: string, k: string, v: string): Option<string>
    requires k != "" && '\\' !in v
  {
    if HasSite(content, true, k) then Some(Subst(content, true, k, v)) else None
  }

  /** The text after a rotation, unchanged if it raised. */
  function Rotated(content: string, k: string, v: string): string
    requires k != "" && '\\' !in v
  {
    match RotateKey(content, k, v)
    case Some(t) => t
    case None => content
  }

  // ---------------------------------------------------------------- locality

  lemma {:induction false} SpacesLocal(a: string, b: string)
    requires a != "" && !Space(a[|a| - 1])
    ensures Spaces(a + b) == Spaces(a) < |a|
  {
    if Space(a[0]) {
      assert (a + b)[1..] == a[1..] + b;
      SpacesLocal(a[1..], b);
    }
  }

  lemma PrefixLocal(k: string, a: string, b: string)
    requires a != "" && a[|a| - 1] == '=' && '=' !in k
    ensures k <= a + b <==> k <= a
    ensures k <= a ==> |k| < |a|
  {
    assert (a + b)[|a| - 1] == '=';
    if k <= a + b && |a| <= |k| {
      assert false;
    }
  }

  lemma AfterKeyLocal(a: string, b: string, k: string)
    requires Key(k) && a != "" && a[|a| - 1] == '='
    ensures AfterKey(a + b, k) == AfterKey(a, k)
  {
    PrefixLocal(k, a, b);
    if k <= a {
      assert (a + b)[|k|..] == a[|k|..] + b;
      SpacesLocal(a[|k|..], b);
    }
  }

  lemma ExportedLocal(a: string, b: string, k: string)
    requires Key(k) && a != "" && a[|a| - 1] == '='
    ensures Exported(a + b, k) == Exported(a, k)
  {
    hide AfterKey, Spaces;
    PrefixLocal("export", a, b);
    if "export" <= a {
      var c := a[6..];
      assert (a + b)[6..] == c + b;
      SpacesLocal(c, b);
      var w := Spaces(c);
      assert a[6 + w..] == c[w..];
      assert (a + b)[6 + w..] == c[w..] + b;
      AfterKeyLocal(c[w..], b, k);
    }
  }

  /** A header is decided by the text up to any `=` that ends a prefix: nothing behind
      that `=` can create, move or destroy it. */
  lemma HeaderLocal(a: string, b: string, k: string)
    requires Key(k) && a != "" && a[|a| - 1] == '='
    ensures Header(a + b, k) == Header(a, k)
  {
    hide Exported, AfterKey;
    SpacesLocal(a, b);
    var q := Spaces(a);
    assert (a + b)[q..] == a[q..] + b;
    ExportedLocal(a[q..], b, k);
    AfterKeyLocal(a[q..], b, k);
  }

  lemma HeaderAtEquals(s: string, k: string)
    requires Key(k) && Header(s, k).Some?
    ensures 1 < Header(s, k).value <= |s| && s[Header(s, k).value - 1] == '='
  {
    hide Spaces;
    HeaderBounds(s, k);
    var h := Header(s, k).value;
    var q := Spaces(s);
    assert s[h - 1] == s[q..][h - q - 1];
    if Exported(s[q..], k).Some? {
      var w := Spaces(s[q..][6..]);
      assert s[q..][6 + w..] == s[q + 6 + w..];
    }
  }

  lemma HeaderEndsAtEquals(s: string, k: string)
    requires Key(k) && Header(s, k).Some?
    ensures 1 < Header(s, k).value <= |s| && s[Header(s, k).value - 1] == '='
    ensures forall b :: Header(s[..Header(s, k).value] + b, k) == Header(s, k)
  {
    hide Header;
    HeaderAtEquals(s, k);
    var a := s[..Header(s, k).value];
    assert s == a + s[|a|..];
    HeaderLocal(a, s[|a|..], k);
    forall b ensures Header(a + b, k) == Header(s, k) { HeaderLocal(a, b, k); }
  }

  lemma NoLoneCRTail(s: string, i: nat)
    requires NoLoneCR(s) && i <= |s|
    ensures NoLoneCR(s[i..])
  {
    var t := s[i..];
    forall j | 0 <= j < |t| && t[j] == '\r' ensures j + 1 < |t| && t[j + 1] == '\n' {
      assert s[i + j] == '\r';
    }
  }

  /** Without a lone CR no backtracking happens. */
  lemma SiteIsGreedy(s: string, k: string)
    requires Key(k) && NoLoneCR(s)
    ensures Site(s, k).Some? <==> Header(s, k).Some?
    ensures Header(s, k).Some? ==>
      var h := Header(s, k).value; 1 < h <= |s| && Site(s, k).value == h + Spaces(s[h..])
  {
    hide Header, Spaces, Run;
    HeaderBounds(s, k);
    if Header(s, k).Some? {
      var h := Header(s, k).value;
      LineEnds(s, h + Spaces(s[h..]));
    }
  }

  lemma LineEnds(s: string, w: nat)
    requires NoLoneCR(s) && w <= |s|
    ensures EndsLine(s[w + Run(s[w..])..])
  {
    var e := w + Run(s[w..]);
    if e < |s| { assert Break(s[w..][e - w]) && s[e..][0] == s[e]; }
  }

  // ---------------------------------------------------------- first rewritten site

  /** Position behind the `=` of the first site. */
  function FirstEquals(s: string, bol: bool, k: string): nat
    requires Key(k) && NoLoneCR(s) && HasSite(s, bol, k)
  {
    if bol && Site(s, k).Some? then SiteIsGreedy(s, k); Header(s, k).value
    else NoLoneCRTail(s, 1); 1 + FirstEquals(s[1..], s[0] == '\n', k)
  }

  /** Up to and including that `=`, rotation changes nothing. */
  lemma {:induction false} PrefixKept(s: string, bol: bool, k: string, v: string)
    requires Key(k) && NoLoneCR(s) && HasSite(s, bol, k)
    ensures var n := FirstEquals(s, bol, k); var t := Subst(s, bol, k, v);
      0 < n <= |s| && s[n - 1] == '=' && n <= |t| && t[..n] == s[..n]
  {
    hide Header, Site, Run, Spaces;
    var t := Subst(s, bol, k, v);
    if bol && Site(s, k).Some? {
      SiteIsGreedy(s, k);
      HeaderEndsAtEquals(s, k);
      var x := Site(s, k).value;
      assert t[..x] == s[..x];
    } else {
      NoLoneCRTail(s, 1);
      PrefixKept(s[1..], s[0] == '\n', k, v);
      ConsPrefix(s[0], s[1..], Subst(s[1..], s[0] == '\n', k, v), FirstEquals(s, bol, k) - 1);
      assert s == [s[0]] + s[1..];
    }
  }

  lemma ConsPrefix(c: char, a: string, b: string, n: nat)
    requires 0 < n <= |a| && n <= |b| && a[..n] == b[..n]
    ensures ([c] + a)[..n + 1] == ([c] + b)[..n + 1] && ([c] + a)[n] == a[n - 1]
  {
    assert ([c] + a)[..n + 1] == [c] + a[..n];
    assert ([c] + b)[..n + 1] == [c] + b[..n];
  }

  lemma {:induction false} NoSiteNoChange(s: string, bol: bool, k: string, v: string)
    requires Key(k) && !HasSite(s, bol, k)
    ensures Subst(s, bol, k, v) == s
  {
    if s != "" { NoSiteNoChange(s[1..], s[0] == '\n', k, v); }
  }

  /** A line start that is no header stays none after rotation. */
  lemma HeaderStaysAbsent(s: string, k: string, v: string, j: string)
    requires Key(k) && Key(j) && NoLoneCR(s) && s != "" && Header(s, k).None?
    ensures Header(Subst(s, true, k, v), j) == Header(s, j)
  {
    hide Header, Subst, FirstEquals;
    SiteIsGreedy(s, k);
    if HasSite(s, true, k) {
      PrefixKept(s, true, k, v);
      var n := FirstEquals(s, true, k);
      var t := Subst(s, true, k, v);
      HeaderLocal(s[..n], s[n..], j);
      HeaderLocal(t[..n], t[n..], j);
      assert s == s[..n] + s[n..] && t == t[..n] + t[n..];
    } else {
      NoSiteNoChange(s, true, k, v);
    }
  }

  /** A header ends at h, white space fills [h, x), and [x, e) runs to the end of its
      line.  The run is empty only at the end of the text. */
  ghost predicate Site3(s: string, k: string, h: nat, x: nat, e: nat)
    requires Key(k)
  {
    && 1 < h <= x <= e <= |s|
    && s[h - 1] == '=' && Header(s[..h], k) == Some(h)
    && (forall i :: h <= i < x ==> Space(s[i]))
    && (forall i :: x <= i < e ==> !Break(s[i]))
    && (x < |s| ==> x < e && !Space(s[x]))
    && (e < |s| ==> Break(s[e]))
  }

  lemma {:induction false} SpacesAt(s: string, h: nat, x: nat)
    requires h <= x <= |s| && (forall i :: h <= i < x ==> Space(s[i])) && (x < |s| ==> !Space(s[x]))
    ensures Spaces(s[h..]) == x - h
    decreases x - h
  {
    if h < x {
      SpacesAt(s, h + 1, x);
      assert s[h..][1..] == s[h + 1..];
    }
  }

  lemma {:induction false} RunAt(s: string, x: nat, e: nat)
    requires x <= e <= |s| && (forall i :: x <= i < e ==> !Break(s[i])) && (e < |s| ==> Break(s[e]))
    ensures Run(s[x..]) == e - x
    decreases e - x
  {
    if x < e {
      RunAt(s, x + 1, e);
      assert s[x..][1..] == s[x + 1..];
    }
  }

  lemma Site3Header(s: string, k: string, h: nat, x: nat, e: nat)
    requires Key(k) && Site3(s, k, h, x, e)
    ensures Header(s, k) == Some(h) && Spaces(s[h..]) == x - h && Run(s[x..]) == e - x
  {
    hide Header, Run, Spaces;
    HeaderLocal(s[..h], s[h..], k);
    assert s == s[..h] + s[h..];
    SpacesAt(s, h, x);
    RunAt(s, x, e);
  }

  /** Every header of a text without lone CR has such a site. */
  lemma SiteShape(s: string, k: string) returns (h: nat, x: nat, e: nat)
    requires Key(k) && NoLoneCR(s) && Header(s, k).Some?
    ensures Site3(s, k, h, x, e) && NoLoneCR(s[e..])
  {
    hide Header, Backtrack, Site, Run, Spaces;
    HeaderEndsAtEquals(s, k);
    h := Header(s, k).value;
    x := h + Spaces(s[h..]);
    e := x + Run(s[x..]);
    assert s[..h] + "" == s[..h];
    assert forall i :: h <= i < x ==> s[i] == s[h..][i - h];
    assert forall i :: x <= i < e ==> s[i] == s[x..][i - x];
    assert x < |s| ==> s[x] == s[h..][x - h];
    assert e < |s| ==> s[e] == s[x..][e - x];
    NoLoneCRTail(s, e);
  }

  /** Reading at a site. */
  lemma ReadAt(s: string, k: string, h: nat, x: nat, e: nat)
    requires Key(k) && Site3(s, k, h, x, e)
    ensures ParseFrom(s, true, k) == Some(Clean(s[x..e]))
  {
    hide Header, Clean, Run, Spaces;
    Site3Header(s, k, h, x, e);
  }

  /** Rotating at a site: only the value changes. */
  lemma RewriteAt(s: string, k: string, h: nat, x: nat, e: nat, v: string)
    requires Key(k) && NoLoneCR(s) && Site3(s, k, h, x, e)
    ensures Subst(s, true, k, v) == s[..x] + v + Subst(s[e..], false, k, v)
    ensures HasSite(s, true, k)
    ensures e < |s| ==> Break(Subst(s[e..], false, k, v)[0])
  {
    hide Header, Site, Run, Spaces;
    Site3Header(s, k, h, x, e);
    SiteIsGreedy(s, k);
    assert s[e - 1] == '\n' ==> s[e..] == "";
  }

  /** The site of the rotated text. */
  lemma SiteMoves(s: string, k: string, h: nat, x: nat, e: nat, v: string, r: string)
    requires Key(k) && Site3(s, k, h, x, e) && SingleLine(v) && !Blank(v) && (r == "" || Break(r[0]))
    requires x <= |s|
    ensures Spaces(v) < |v| && Site3(s[..x] + v + r, k, h, x + Spaces(v), x + |v|)
  {
    hide Header, Spaces, Space, Break, Site3, Blank, SingleLine;
    var t := s[..x] + v + r;
    assert forall i :: 0 <= i < |v| ==> t[x + i] == v[i];
    assert r != "" ==> t[x + |v|] == r[0];
    assert t[..x] == s[..x];
    SiteAt(s, k, h, x, e, v, t);
  }

  lemma SiteAt(s: string, k: string, h: nat, x: nat, e: nat, v: string, t: string)
    requires Key(k) && Site3(s, k, h, x, e) && SingleLine(v) && !Blank(v)
    requires x + |v| <= |t| && t[..x] == s[..x] && (forall i :: 0 <= i < |v| ==> t[x + i] == v[i])
    requires x + |v| < |t| ==> Break(t[x + |v|])
    ensures Spaces(v) < |v| && Site3(t, k, h, x + Spaces(v), x + |v|)
  {
    hide Header, Spaces, Space, Break;
    var w := Spaces(v);
    assert t[..h] == s[..x][..h] == s[..h];
    forall i | 0 <= i < x ensures t[i] == s[i] { assert t[..x][i] == s[..x][i]; }
    forall i | x <= i < x + |v| ensures t[i] == v[i - x] { assert t[x + (i - x)] == v[i - x]; }
  }

  // ------------------------------------------------------------------ lens laws

  lemma {:induction false} LstripSpaces(v: string)
    ensures Lstrip(v, Space) == v[Spaces(v)..]
  {
    if v != "" && Space(v[0]) { LstripSpaces(v[1..]); }
  }

  lemma CleanIgnoresMargin(v: string)
    ensures Clean(v[Spaces(v)..]) == Clean(v)
  {
    LstripSpaces(v);
  }

  lemma {:induction false} PutGetFrom(s: string, bol: bool, k: string, v: string)
    requires Key(k) && NoLoneCR(s) && SingleLine(v) && !Blank(v) && HasSite(s, bol, k)
    ensures ParseFrom(Subst(s, bol, k, v), bol, k) == Some(Clean(v))
    decreases |s|
  {
    hide Header, Site, Clean;
    SiteIsGreedy(s, k);
    if bol && Header(s, k).Some? {
      PutGetAt(s, k, v);
    } else {
      NoLoneCRTail(s, 1);
      PutGetFrom(s[1..], s[0] == '\n', k, v);
      if bol { HeaderStaysAbsent(s, k, v, k); }
    }
  }

  lemma PutGetAt(s: string, k: string, v: string)
    requires Key(k) && NoLoneCR(s) && SingleLine(v) && !Blank(v) && Header(s, k).Some?
    ensures ParseFrom(Subst(s, true, k, v), true, k) == Some(Clean(v))
  {
    hide Header, Subst, Clean, ParseFrom, Run, Spaces, Space, Break;
    var h, x, e := SiteShape(s, k);
    RewriteAt(s, k, h, x, e, v);
    var r := Subst(s[e..], false, k, v);
    assert r == "" || Break(r[0]) by { SubstEmpty(s[e..], k, v); }
    SiteMoves(s, k, h, x, e, v, r);
    ReadAt(s[..x] + v + r, k, h, x + Spaces(v), x + |v|);
    assert (s[..x] + v + r)[x + Spaces(v)..x + |v|] == v[Spaces(v)..];
    CleanIgnoresMargin(v);
  }

  lemma SubstEmpty(s: string, k: string, v: string)
    requires k != ""
    ensures s == "" ==> Subst(s, false, k, v) == ""
  {}

  /** PutGet.  After a rotation the reader returns the new value, stripped the way it
      strips every value. */
  lemma PutGet(c: string, k: string, v: string)
    requires Key(k) && NoLoneCR(c) && SingleLine(v) && !Blank(v) && '\\' !in v
    requires RotateKey(c, k, v).Some?
    ensures ParseValue(RotateKey(c, k, v).value, k) == Some(Clean(v))
    ensures ParseValue(RotateKey(c, k, v).value, k) == Some(v) <==> Plain(v)
  {
    PutGetFrom(c, true, k, v);
    CleanFixes(v);
  }

  /** Neither end is white space or a quote. */
  predicate Plain(v: string) {
    v != "" ==>
      && !Space(v[0]) && !DoubleQuote(v[0]) && !SingleQuote(v[0])
      && var z := v[|v| - 1]; !Space(z) && !DoubleQuote(z) && !SingleQuote(z)
  }

  lemma {:induction false} StripShrinks(s: string, p: char -> bool)
    ensures |Strip(s, p)| <= |Lstrip(s, p)| <= |s|
    ensures |Strip(s, p)| == |s| <==> (s != "" ==> !p(s[0]) && !p(s[|s| - 1]))
    ensures |Strip(s, p)| == |s| ==> Strip(s, p) == s
  {
    LstripShrinks(s, p);
    RstripShrinks(Lstrip(s, p), p);
  }

  lemma {:induction false} LstripShrinks(s: string, p: char -> bool)
    ensures |Lstrip(s, p)| <= |s|
    ensures s != "" && p(s[0]) ==> |Lstrip(s, p)| < |s|
  {
    if s != "" && p(s[0]) { LstripShrinks(s[1..], p); }
  }

  lemma {:induction false} RstripShrinks(s: string, p: char -> bool)
    ensures |Rstrip(s, p)| <= |s|
    ensures s != "" && p(s[|s| - 1]) ==> |Rstrip(s, p)| < |s|
  {
    if s != "" && p(s[|s| - 1]) { RstripShrinks(s[..|s| - 1], p); }
  }

  lemma CleanFixes(v: string)
    ensures Clean(v) == v <==> Plain(v)
  {
    var a := Strip(v, Space);
    var b := Strip(a, DoubleQuote);
    StripShrinks(v, Space);
    StripShrinks(a, DoubleQuote);
    StripShrinks(b, SingleQuote);
  }

  lemma NoLoneCRJoined(s: string, x: nat, u: string, r: string)
    requires NoLoneCR(s) && x <= |s| && (x < |s| ==> !Space(s[x]))
    requires SingleLine(u) && NoLoneCR(r)
    ensures NoLoneCR(s[..x] + u + r)
  {
    var t := s[..x] + u + r;
    forall i | 0 <= i < |t| && t[i] == '\r' ensures i + 1 < |t| && t[i + 1] == '\n' {
      if i < x {
        assert s[i + 1] == '\n';
      } else {
        assert forall c :: c in u ==> !Break(c);
        assert t[i] !in u;
        assert r[i - x - |u|] == '\r';
      }
    }
  }

  /** The white space a value starts with. */
  function Margin(u: string): string { u[..Spaces(u)] }

  lemma {:induction false} PutPutFrom(s: string, bol: bool, k: string, u: string, v: string)
    requires Key(k) && NoLoneCR(s) && SingleLine(u) && !Blank(u)
    ensures NoLoneCR(Subst(s, bol, k, u))
    ensures Subst(Subst(s, bol, k, u), bol, k, v) == Subst(s, bol, k, Margin(u) + v)
    ensures HasSite(Subst(s, bol, k, u), bol, k) == HasSite(s, bol, k)
    decreases |s|
  {
    hide Header, Site, Margin, Blank;
    SiteIsGreedy(s, k);
    if s == "" {
    } else if bol && Header(s, k).Some? {
      var h, x, e := SiteShape(s, k);
      PutPutFrom(s[e..], false, k, u, v);
      PutPutAt(s, k, h, x, e, u, v);
    } else {
      NoLoneCRTail(s, 1);
      PutPutFrom(s[1..], s[0] == '\n', k, u, v);
      PutPutPast(s, bol, k, u, v, Margin(u) + v);
    }
  }

  lemma PutPutAt(s: string, k: string, h: nat, x: nat, e: nat, u: string, v: string)
    requires Key(k) && NoLoneCR(s) && Site3(s, k, h, x, e) && SingleLine(u) && !Blank(u)
    requires NoLoneCR(Subst(s[e..], false, k, u))
    requires Subst(Subst(s[e..], false, k, u), false, k, v) == Subst(s[e..], false, k, Margin(u) + v)
    ensures NoLoneCR(Subst(s, true, k, u))
    ensures Subst(Subst(s, true, k, u), true, k, v) == Subst(s, true, k, Margin(u) + v)
    ensures HasSite(Subst(s, true, k, u), true, k) && HasSite(s, true, k)
  {
    hide Header, Subst, HasSite, Run, Spaces, Blank;
    RewriteAt(s, k, h, x, e, u);
    RewriteAt(s, k, h, x, e, Margin(u) + v);
    var r := Subst(s[e..], false, k, u);
    assert r == "" || Break(r[0]) by { SubstEmpty(s[e..], k, u); }
    SiteMoves(s, k, h, x, e, u, r);
    NoLoneCRJoined(s, x, u, r);
    var t := s[..x] + u + r;
    RewriteAt(t, k, h, x + Spaces(u), x + |u|, v);
    assert t[..x + Spaces(u)] == s[..x] + Margin(u) && t[x + |u|..] == r;
    var rest := Subst(s[e..], false, k, Margin(u) + v);
    assert s[..x] + Margin(u) + v + rest == s[..x] + (Margin(u) + v) + rest;
  }

  lemma PutPutPast(s: string, bol: bool, k: string, u: string, v: string, w: string)
    requires Key(k) && NoLoneCR(s) && s != "" && (bol ==> Header(s, k).None?)
    requires NoLoneCR(Subst(s[1..], s[0] == '\n', k, u))
    requires Subst(Subst(s[1..], s[0] == '\n', k, u), s[0] == '\n', k, v) == Subst(s[1..], s[0] == '\n', k, w)
    requires HasSite(Subst(s[1..], s[0] == '\n', k, u), s[0] == '\n', k) == HasSite(s[1..], s[0] == '\n', k)
    ensures NoLoneCR(Subst(s, bol, k, u))
    ensures Subst(Subst(s, bol, k, u), bol, k, v) == Subst(s, bol, k, w)
    ensures HasSite(Subst(s, bol, k, u), bol, k) == HasSite(s, bol, k)
  {
    hide Header, Site;
    SiteIsGreedy(s, k);
    var t := Subst(s, bol, k, u);
    var r := Subst(s[1..], s[0] == '\n', k, u);
    assert t == [s[0]] + r && t[1..] == r;
    assert s[0] == '\r' ==> r[0] == '\n' by {
      if s[0] == '\r' { assert s[1..][0] == '\n'; }
    }
    forall i | 0 <= i < |t| && t[i] == '\r' ensures i + 1 < |t| && t[i + 1] == '\n' {
      if i > 0 { assert r[i - 1] == '\r'; }
    }
    if bol { HeaderStaysAbsent(s, k, u, k); SiteIsGreedy(t, k); }
  }

  /** A longer value makes a longer text, once for each site. */
  lemma {:induction false} SubstGrows(s: string, bol: bool, k: string, v: string, w: string)
    requires k != "" && |v| <= |w|
    ensures |Subst(s, bol, k, v)| <= |Subst(s, bol, k, w)|
    ensures HasSite(s, bol, k) && |v| < |w| ==> |Subst(s, bol, k, v)| < |Subst(s, bol, k, w)|
    decreases |s|
  {
    hide Site, Run;
    if s == "" {
    } else if bol && Site(s, k).Some? {
      var e := Site(s, k).value + Run(s[Site(s, k).value..]);
      SubstGrows(s[e..], s[e - 1] == '\n', k, v, w);
    } else {
      SubstGrows(s[1..], s[0] == '\n', k, v, w);
    }
  }

  lemma {:induction false} NoLoneCRSubst(s: string, bol: bool, k: string, u: string)
    requires Key(k) && NoLoneCR(s) && SingleLine(u)
    ensures NoLoneCR(Subst(s, bol, k, u))
    decreases |s|
  {
    hide Header, Site;
    SiteIsGreedy(s, k);
    if s == "" {
    } else if bol && Header(s, k).Some? {
      var h, x, e := SiteShape(s, k);
      NoLoneCRSubst(s[e..], false, k, u);
      RewriteAt(s, k, h, x, e, u);
      NoLoneCRJoined(s, x, u, Subst(s[e..], false, k, u));
    } else {
      NoLoneCRTail(s, 1);
      NoLoneCRSubst(s[1..], s[0] == '\n', k, u);
      NoLoneCRCons(s, Subst(s[1..], s[0] == '\n', k, u));
      SubstPast(s, bol, k, u);
      assert s[0] == '\r' ==> s[1..][0] == '\n';
    }
  }

  lemma NoLoneCRCons(s: string, r: string)
    requires s != "" && NoLoneCR(r) && (s[0] == '\r' ==> r != "" && r[0] == '\n')
    ensures NoLoneCR([s[0]] + r)
  {
    var t := [s[0]] + r;
    forall i | 0 <= i < |t| && t[i] == '\r' ensures i + 1 < |t| && t[i + 1] == '\n' {
      if i > 0 { assert r[i - 1] == '\r'; }
    }
  }

  /** White space has no assignment, and nothing that keeps one is white space. */
  lemma BlankKept(r: string, k: string, u: string)
    requires Key(k) && NoLoneCR(r)
    ensures Blank(r) <==> Blank(Subst(r, false, k, u))
    ensures Blank(r) ==> Subst(r, false, k, u) == r
  {
    hide Subst, FirstEquals;
    if HasSite(r, false, k) {
      PrefixKept(r, false, k, u);
      var n := FirstEquals(r, false, k);
      assert Subst(r, false, k, u)[n - 1] == r[..n][n - 1] == r[n - 1];
    } else {
      NoSiteNoChange(r, false, k, u);
    }
  }

  /** A blank value joins the white space before it: the next rotation goes past it to the
      first line below with anything on it. */
  lemma BlankSite(s: string, k: string, h: nat, x: nat, e: nat, u: string, r: string) returns (x': nat, e': nat)
    requires Key(k) && Site3(s, k, h, x, e) && Blank(u)
    ensures var w := Spaces(r); var m := Run(r[w..]);
      && x' == x + |u| + w && e' == x' + m && Site3(s[..x] + u + r, k, h, x', e')
  {
    hide Header, Spaces, Run, Space, Break;
    var w := Spaces(r);
    var m := Run(r[w..]);
    x', e' := x + |u| + w, x + |u| + w + m;
    var t := s[..x] + u + r;
    assert t[..h] == s[..x][..h] == s[..h];
    assert forall i :: 0 <= i < x ==> t[i] == s[i];
    assert forall i :: x <= i < x + |u| ==> t[i] == u[i - x];
    assert forall i :: x + |u| <= i < |t| ==> t[i] == r[i - x - |u|];
    assert forall i :: w <= i < |r| ==> r[i] == r[w..][i - w];
    assert w < |r| ==> !Break(r[w]) by { hide *; SolidNoBreak(r, w); }
  }

  lemma SolidNoBreak(r: string, w: nat)
    ensures w < |r| && Spaces(r) == w ==> !Break(r[w])
  {}

  /** Comparing the two texts from the old value on. */
  lemma BlankCompared(u: string, r: string, v: string, z: string, q: string)
    requires SingleLine(u) && Blank(u) && SingleLine(v) && r != "" && Break(r[0]) && q != "" && Break(q[0])
    requires z != "" ==> Break(z[0])
    requires u + r[..Spaces(r)] + v + z == v + q
    ensures u == v && (q == r ==> v == "" && Blank(r))
  {
    var w := Spaces(r);
    SpacesOfBreak(r);
    BlankAhead(u, z);
    hide *;
    var y := r[..w] + (v + z);
    Regroup(u, r[..w], v, z);
    FirstBreak(u, y);
    FirstBreak(v, q);
    SameFront(u, y, v, q);
    if q == r {
      assert y[w..] == v + z;
      NothingAhead(r, v + z);
    }
  }

  lemma Regroup(a: string, b: string, c: string, d: string)
    ensures a + (b + (c + d)) == a + b + c + d
  {}

  lemma SameFront(u: string, y: string, v: string, q: string)
    requires |u| == |v| && u + y == v + q
    ensures u == v && y == q
  {
    assert u == (u + y)[..|u|] == (v + q)[..|v|] == v;
    assert y == (u + y)[|u|..] == (v + q)[|v|..] == q;
  }

  lemma BlankAhead(v: string, z: string)
    requires Blank(v) && (z != "" ==> Break(z[0]))
    ensures v + z == "" || Space((v + z)[0])
  {
    if v != "" { assert (v + z)[0] == v[0]; }
  }

  lemma FirstBreak(u: string, r: string)
    requires SingleLine(u) && r != "" && Break(r[0])
    ensures Run(u + r) == |u|
  {
    RunAt(u + r, 0, |u|);
    assert (u + r)[0..] == u + r;
  }

  lemma SpacesOfBreak(r: string)
    requires r != "" && Break(r[0])
    ensures 0 < Spaces(r) && r[..Spaces(r)][0] == r[0]
  {}

  lemma NothingAhead(r: string, y: string)
    requires r[Spaces(r)..] == y && (y == "" || Space(y[0]))
    ensures Spaces(r) == |r| && Blank(r) && y == ""
  {}

  /** The law from the old value on: r is what follows it once rotated, q what follows it
      rotated with v, z what follows the second rotation. */
  lemma BlankLaw(u: string, r: string, v: string, z: string, q: string)
    requires SingleLine(u) && Blank(u) && SingleLine(v) && (r == "" <==> q == "")
    requires r != "" ==> Break(r[0]) && Break(q[0])
    requires z != "" ==> Break(z[0])
    requires Spaces(r) == |r| ==> z == ""
    requires u == v || Blank(r) ==> q == r
    ensures u + r[..Spaces(r)] + v + z == v + q <==> u == "" && (r == "" || (v == "" && Blank(r)))
  {
    var w := r[..Spaces(r)];
    if u + w + v + z == v + q {
      if r == "" { assert |u + w + v + z| == |u| + |v| && |v + q| == |v|; } else { BlankCompared(u, r, v, z, q); }
    }
    if u == "" && (r == "" || (v == "" && Blank(r))) {
      AllSpaces(r);
      assert "" + r + v + "" == v + r;
    }
  }

  lemma SubstHead(s: string, k: string, v: string)
    requires k != ""
    ensures var t := Subst(s, false, k, v);
      (t == "" <==> s == "") && (s != "" ==> t[0] == s[0])
  {}

  lemma SiteBounds(s: string, k: string, h: nat, x: nat, e: nat)
    requires Key(k) && Site3(s, k, h, x, e)
    ensures k != "" && 0 < x <= e <= |s| && (x < |s| ==> !Space(s[x])) && (e < |s| ==> Break(s[e]))
  {}

  lemma FrontOfJoined(a: string, b: string, c: string, n: nat)
    requires n <= |c|
    ensures (a + b + c)[..|a| + |b| + n] == a + b + c[..n]
  {}

  /** The site after a rotation to a blank value. */
  lemma BlankOnce(s: string, k: string, h: nat, x: nat, e: nat, u: string) returns (x': nat, e': nat)
    requires Key(k) && NoLoneCR(s) && Site3(s, k, h, x, e) && SingleLine(u) && Blank(u)
    ensures var t := Subst(s, true, k, u); var r := Subst(s[e..], false, k, u);
      && t == s[..x] + u + r && NoLoneCR(t) && Site3(t, k, h, x', e')
      && x' == x + |u| + Spaces(r) && (Spaces(r) == |r| ==> e' == |t|)
  {
    RewriteAt(s, k, h, x, e, u);
    SiteBounds(s, k, h, x, e);
    hide *;
    var r := Subst(s[e..], false, k, u);
    NoLoneCRTail(s, e);
    NoLoneCRSubst(s[e..], false, k, u);
    NoLoneCRJoined(s, x, u, r);
    x', e' := BlankSite(s, k, h, x, e, u, r);
  }

  lemma BlankFront(s: string, k: string, h: nat, x: nat, e: nat, u: string) returns (x': nat, e': nat)
    requires Key(k) && NoLoneCR(s) && Site3(s, k, h, x, e) && SingleLine(u) && Blank(u)
    ensures var t := Subst(s, true, k, u); var r := Subst(s[e..], false, k, u);
      && NoLoneCR(t) && Site3(t, k, h, x', e') && x' <= |t|
      && t[..x'] == s[..x] + u + r[..Spaces(r)] && (Spaces(r) == |r| ==> e' == |t|)
  {
    SiteBounds(s, k, h, x, e);
    hide *;
    var r := Subst(s[e..], false, k, u);
    x', e' := BlankOnce(s, k, h, x, e, u);
    FrontOfJoined(s[..x], u, r, Spaces(r));
  }

  /** The second of two rotations there. */
  lemma BlankTwice(s: string, k: string, h: nat, x: nat, e: nat, u: string, v: string) returns (z: string)
    requires Key(k) && NoLoneCR(s) && Site3(s, k, h, x, e) && SingleLine(u) && Blank(u)
    ensures var t := Subst(s, true, k, u); var r := Subst(s[e..], false, k, u);
      && HasSite(t, true, k)
      && Subst(t, true, k, v) == s[..x] + u + r[..Spaces(r)] + v + z
      && (z != "" ==> Break(z[0])) && (Spaces(r) == |r| ==> z == "")
  {
    SiteBounds(s, k, h, x, e);
    hide *;
    var x', e' := BlankFront(s, k, h, x, e, u);
    var t := Subst(s, true, k, u);
    SiteBounds(t, k, h, x', e');
    RewriteAt(t, k, h, x', e', v);
    z := Subst(t[e'..], false, k, v);
    SubstHead(t[e'..], k, v);
  }

  lemma BlankPutPutAt(s: string, k: string, h: nat, x: nat, e: nat, u: string, v: string)
    requires Key(k) && NoLoneCR(s) && Site3(s, k, h, x, e) && SingleLine(u) && Blank(u) && SingleLine(v)
    ensures var t := Subst(s, true, k, u);
      && HasSite(t, true, k)
      && (Subst(t, true, k, v) == Subst(s, true, k, v) <==>
            u == "" && (e == |s| || (v == "" && Blank(s[e..]))))
  {
    RewriteAt(s, k, h, x, e, v);
    var z := BlankTwice(s, k, h, x, e, u, v);
    NoLoneCRTail(s, e);
    hide *;
    var r, q := Subst(s[e..], false, k, u), Subst(s[e..], false, k, v);
    SubstHead(s[e..], k, u);
    SubstHead(s[e..], k, v);
    BlankKept(s[e..], k, u);
    BlankKept(s[e..], k, v);
    BlankLaw(u, r, v, z, q);
    assert s[e..] == "" <==> e == |s|;
    CancelFront(s[..x], u, r[..Spaces(r)], v, z, q);
  }

  lemma CancelFront(p: string, u: string, w: string, v: string, z: string, q: string)
    ensures p + u + w + v + z == p + v + q <==> u + w + v + z == v + q
  {
    assert p + u + w + v + z == p + (u + w + v + z) && p + v + q == p + (v + q);
    Cancel(p, u + w + v + z, v + q);
  }

  lemma Cancel(p: string, a: string, b: string)
    ensures p + a == p + b <==> a == b
  {
    if p + a == p + b { assert a == (p + a)[|p|..] == b; }
  }

  lemma AllSpaces(r: string)
    requires Blank(r)
    ensures Spaces(r) == |r| && r[..Spaces(r)] == r
  {}

  lemma {:induction false} BlankPutPutFrom(s: string, bol: bool, k: string, u: string, v: string)
    requires Key(k) && NoLoneCR(s) && SingleLine(u) && Blank(u) && SingleLine(v) && HasSite(s, bol, k)
    ensures var t := Subst(s, bol, k, u); var e := ValueEnd(s, bol, k);
      && HasSite(t, bol, k)
      && (Subst(t, bol, k, v) == Subst(s, bol, k, v) <==>
            u == "" && (e == |s| || (v == "" && Blank(s[e..]))))
    decreases |s|
  {
    hide Header, Site, Blank, SingleLine, Run, Spaces;
    SiteIsGreedy(s, k);
    if bol && Header(s, k).Some? {
      var h, x, e := SiteShape(s, k);
      ValueEndAt(s, k, h, x, e);
      BlankPutPutAt(s, k, h, x, e, u, v);
    } else {
      NoLoneCRTail(s, 1);
      var c := s[0] == '\n';
      BlankPutPutFrom(s[1..], c, k, u, v);
      if bol { HeaderStaysAbsent(s, k, u, k); }
      SubstPast(s, bol, k, u);
      SubstPast(s, bol, k, v);
      var t, r := Subst(s, bol, k, u), Subst(s[1..], c, k, u);
      assert t[0] == s[0] && t[1..] == r;
      SubstPast(t, bol, k, v);
      Cancel([s[0]], Subst(r, c, k, v), Subst(s[1..], c, k, v));
      assert s[1..][ValueEnd(s, bol, k) - 1..] == s[ValueEnd(s, bol, k)..];
    }
  }

  /** PutPut.  Rotating twice is rotating once with the last value behind the white space the
      first one started with; so it is rotating once with the last value exactly when the
      first one started with none.  A blank first value is lost in the white space behind the
      `=`, and the second rotation goes on below it: there the law holds exactly when that
      value was empty and nothing below could be hit, because the replaced value ended the
      text, or the second value is empty too and only white space follows. */
  lemma PutPut(c: string, k: string, u: string, v: string)
    requires Key(k) && NoLoneCR(c) && SingleLine(u) && SingleLine(v) && '\\' !in u && '\\' !in v
    requires RotateKey(c, k, u).Some?
    ensures RotateKey(RotateKey(c, k, u).value, k, v).Some?
    ensures !Blank(u) ==>
      && '\\' !in Margin(u) + v
      && RotateKey(RotateKey(c, k, u).value, k, v) == RotateKey(c, k, Margin(u) + v)
    ensures RotateKey(RotateKey(c, k, u).value, k, v) == RotateKey(c, k, v) <==>
      if !Blank(u) then !Space(u[0])
      else
        var e := ValueEnd(c, true, k);
        u == "" && (e == |c| || (v == "" && Blank(c[e..])))
  {
    if Blank(u) {
      BlankPutPutFrom(c, true, k, u, v);
    } else {
      assert '\\' !in Margin(u) by { forall i | 0 <= i < |Margin(u)| ensures Margin(u)[i] != '\\' { assert u[i] in u; } }
      PutPutFrom(c, true, k, u, v);
      SubstGrows(c, true, k, v, Margin(u) + v);
      if !Space(u[0]) { assert Margin(u) + v == v; }
    }
    hide *;
  }

  // ------------------------------------------------- putting a value and reading it back

  /** The first line of u with anything on it, from its first character. */
  function FirstLine(u: string): string {
    var w := Spaces(u);
    u[w..w + Run(u[w..])]
  }

  lemma {:induction false} SpacesSkip(a: string, b: string)
    requires Blank(a)
    ensures Spaces(a + b) == |a| + Spaces(b)
  {
    if a == "" {
      assert a + b == b;
    } else {
      assert (a + b)[1..] == a[1..] + b;
      SpacesSkip(a[1..], b);
    }
  }

  lemma FirstLineSkips(a: string, b: string)
    requires Blank(a)
    ensures FirstLine(a + b) == FirstLine(b)
  {
    hide Run, Spaces;
    SpacesSkip(a, b);
    var w := Spaces(b);
    assert (a + b)[|a| + w..] == b[w..];
  }

  lemma {:induction false} RunLocal(a: string, b: string)
    ensures if Run(a) < |a| then Run(a + b) == Run(a) else |a| <= Run(a + b)
  {
    if a != "" && !Break(a[0]) {
      assert (a + b)[1..] == a[1..] + b;
      RunLocal(a[1..], b);
    }
  }

  /** Neither white space nor a quote: survives stripping. */
  predicate Solid(c: char) { !Space(c) && !DoubleQuote(c) && !SingleQuote(c) }

  lemma {:induction false} LstripKeeps(s: string, p: char -> bool, i: nat) returns (j: nat)
    requires i < |s| && !p(s[i])
    ensures j < |Lstrip(s, p)| && Lstrip(s, p)[j] == s[i]
  {
    if p(s[0]) { j := LstripKeeps(s[1..], p, i - 1); } else { j := i; }
  }

  lemma {:induction false} RstripKeeps(s: string, p: char -> bool, i: nat) returns (j: nat)
    requires i < |s| && !p(s[i])
    ensures j < |Rstrip(s, p)| && Rstrip(s, p)[j] == s[i]
  {
    if p(s[|s| - 1]) { j := RstripKeeps(s[..|s| - 1], p, i); } else { j := i; }
  }

  lemma CleanKeeps(s: string, i: nat)
    requires i < |s| && Solid(s[i])
    ensures Clean(s) != ""
  {
    hide Lstrip, Rstrip;
    var j := LstripKeeps(s, Space, i);
    j := RstripKeeps(Lstrip(s, Space), Space, j);
    var a := Strip(s, Space);
    j := LstripKeeps(a, DoubleQuote, j);
    j := RstripKeeps(Lstrip(a, DoubleQuote), DoubleQuote, j);
    var b := Strip(a, DoubleQuote);
    j := LstripKeeps(b, SingleQuote, j);
    j := RstripKeeps(Lstrip(b, SingleQuote), SingleQuote, j);
  }

  lemma FirstLineAt(u: string, w: nat, n: nat)
    requires w + n <= |u| && Spaces(u) == w && Run(u[w..]) == n
    ensures FirstLine(u) == u[w..w + n]
  {}

  /** The first line behind a prefix that ends with `=`: it ends in the prefix, or the `=` is
      on it. */
  lemma FirstLineLocal(a: string, b: string)
    requires a != "" && a[|a| - 1] == '='
    ensures Run(a[Spaces(a)..]) < |a| - Spaces(a) ==> FirstLine(a + b) == FirstLine(a)
    ensures Run(a[Spaces(a)..]) >= |a| - Spaces(a) ==> Clean(FirstLine(a + b)) != ""
  {
    hide *;
    SpacesOfEquals(a, b);
    var w := Spaces(a);
    RunLocal(a[w..], b);
    assert (a + b)[w..] == a[w..] + b;
    var n := Run(a[w..] + b);
    FirstLineAt(a + b, w, n);
    if Run(a[w..]) < |a| - w {
      FirstLineAt(a, w, n);
      assert (a + b)[w..w + n] == a[w..w + n];
    } else {
      EqualsOnLine(a + b, w, n, |a| - 1);
    }
  }

  lemma SpacesOfEquals(a: string, b: string)
    requires a != "" && a[|a| - 1] == '='
    ensures Spaces(a + b) == Spaces(a) < |a|
  {
    SpacesLocal(a, b);
  }

  lemma EqualsOnLine(u: string, w: nat, n: nat, i: nat)
    requires w <= i < w + n <= |u| && u[i] == '='
    ensures Clean(u[w..w + n]) != ""
  {
    assert u[w..w + n][i - w] == '=';
    CleanKeeps(u[w..w + n], i - w);
  }

  /** Whether the first line behind a value strips to nothing is not changed by rotating
      the text there. */
  lemma FirstLineKept(r: string, k: string, v: string)
    requires Key(k) && NoLoneCR(r)
    ensures Clean(FirstLine(Subst(r, false, k, v))) == "" <==> Clean(FirstLine(r)) == ""
  {
    hide FirstLine, Clean, FirstEquals, Subst;
    if HasSite(r, false, k) {
      PrefixKept(r, false, k, v);
      var t := Subst(r, false, k, v);
      var n := FirstEquals(r, false, k);
      assert r == r[..n] + r[n..] && t == r[..n] + t[n..];
      FirstLineLocal(r[..n], r[n..]);
      FirstLineLocal(r[..n], t[n..]);
    } else {
      NoSiteNoChange(r, false, k, v);
    }
  }

  /** Where the first replaced value ends. */
  function ValueEnd(s: string, bol: bool, k: string): (e: nat)
    requires k != ""
    ensures e <= |s|
  {
    if s == "" then 0
    else if bol && Site(s, k).Some? then Site(s, k).value + Run(s[Site(s, k).value..])
    else 1 + ValueEnd(s[1..], s[0] == '\n', k)
  }

  /** Where it starts. */
  function ValueStart(s: string, bol: bool, k: string): (x: nat)
    requires k != ""
    ensures x <= |s|
  {
    if s == "" then 0
    else if bol && Site(s, k).Some? then Site(s, k).value
    else 1 + ValueStart(s[1..], s[0] == '\n', k)
  }

  lemma SliceTwice(t: string, h: nat, n: nat, m: nat)
    requires h + n + m <= |t|
    ensures t[h..][n..] == t[h + n..] && t[h..][n..n + m] == t[h + n..h + n + m]
  {}

  lemma ParseAtHeader(t: string, k: string)
    requires Key(k) && Header(t, k).Some?
    ensures var h := Header(t, k).value;
      && 1 < h <= |t|
      && var w := h + Spaces(t[h..]); ParseFrom(t, true, k) == Some(Clean(t[w..w + Run(t[w..])]))
  {
    hide Header, Clean, Run, Spaces;
    HeaderBounds(t, k);
  }

  lemma ReadAtHeader(t: string, k: string)
    requires Key(k) && Header(t, k).Some?
    ensures 1 < Header(t, k).value <= |t|
    ensures ParseFrom(t, true, k) == Some(Clean(FirstLine(t[Header(t, k).value..])))
  {
    hide *;
    ParseAtHeader(t, k);
    var h := Header(t, k).value;
    var n := Spaces(t[h..]);
    var m := Run(t[h + n..]);
    SliceTwice(t, h, n, m);
    FirstLineAt(t[h..], n, m);
  }

  lemma ValueEndAt(s: string, k: string, h: nat, x: nat, e: nat)
    requires Key(k) && NoLoneCR(s) && Site3(s, k, h, x, e)
    ensures ValueEnd(s, true, k) == e
  {
    hide Header, Site, Run, Spaces;
    Site3Header(s, k, h, x, e);
    SiteIsGreedy(s, k);
  }

  lemma BlankRead(pre: string, m: string, r: string, k: string)
    requires Key(k) && pre != "" && pre[|pre| - 1] == '=' && Header(pre, k) == Some(|pre|) && Blank(m)
    ensures ParseFrom(pre + (m + r), true, k) == Some(Clean(FirstLine(r)))
  {
    hide Header, Clean, FirstLine, ParseFrom, Blank;
    var t := pre + (m + r);
    HeaderLocal(pre, m + r, k);
    ReadAtHeader(t, k);
    assert t[|pre|..] == m + r;
    FirstLineSkips(m, r);
  }

  lemma MarginIsBlank(s: string, h: nat, x: nat, v: string)
    requires h <= x <= |s| && (forall i :: h <= i < x ==> Space(s[i])) && Blank(v)
    ensures Blank(s[h..x] + v)
  {
    hide Space;
  }

  lemma BlankAt(s: string, k: string, v: string)
    requires Key(k) && NoLoneCR(s) && SingleLine(v) && Blank(v) && Header(s, k).Some? && HasSite(s, true, k)
    ensures var got := ParseFrom(Subst(s, true, k, v), true, k);
      got.Some? && (got.value == "" <==> Clean(FirstLine(s[ValueEnd(s, true, k)..])) == "")
  {
    hide Header, Subst, Clean, Run, Spaces, Space, Break, Site, FirstLine, ParseFrom, ValueEnd, Blank, HasSite;
    var h, x, e := SiteShape(s, k);
    ValueEndAt(s, k, h, x, e);
    RewriteAt(s, k, h, x, e, v);
    MarginIsBlank(s, h, x, v);
    var r := Subst(s[e..], false, k, v);
    assert s[..x] + v + r == s[..h] + (s[h..x] + v + r);
    BlankRead(s[..h], s[h..x] + v, r, k);
    FirstLineKept(s[e..], k, v);
  }

  lemma {:induction false} BlankFrom(s: string, bol: bool, k: string, v: string)
    requires Key(k) && NoLoneCR(s) && SingleLine(v) && Blank(v) && HasSite(s, bol, k)
    ensures var got := ParseFrom(Subst(s, bol, k, v), bol, k);
      got.Some? && (got.value == "" <==> Clean(FirstLine(s[ValueEnd(s, bol, k)..])) == "")
    decreases |s|
  {
    hide Header, Site, Clean, FirstLine, Blank, Run;
    SiteIsGreedy(s, k);
    if bol && Header(s, k).Some? {
      BlankAt(s, k, v);
    } else {
      NoLoneCRTail(s, 1);
      BlankFrom(s[1..], s[0] == '\n', k, v);
      if bol { HeaderStaysAbsent(s, k, v, k); }
      assert s[1..][ValueEnd(s, bol, k) - 1..] == s[ValueEnd(s, bol, k)..];
    }
  }

  lemma {:induction false} CleanBlank(v: string)
    requires Blank(v)
    ensures Clean(v) == ""
  {
    LstripBlank(v);
  }

  lemma {:induction false} LstripBlank(v: string)
    requires Blank(v)
    ensures Lstrip(v, Space) == ""
  {
    if v != "" { LstripBlank(v[1..]); }
  }

  /** PutGet on every single-line value.  The reader returns the new value, stripped the way
      it strips every value, exactly when the value is not blank or the first line behind it
      strips to nothing: behind a blank value the reader goes on to the next line. */
  lemma PutGetExact(c: string, k: string, v: string)
    requires Key(k) && NoLoneCR(c) && SingleLine(v) && '\\' !in v
    requires RotateKey(c, k, v).Some?
    ensures ParseValue(RotateKey(c, k, v).value, k) == Some(Clean(v)) <==>
      !Blank(v) || Clean(FirstLine(c[ValueEnd(c, true, k)..])) == ""
  {
    hide Clean, FirstLine, Subst, ParseFrom, ValueEnd;
    if Blank(v) {
      BlankFrom(c, true, k, v);
      CleanBlank(v);
    } else {
      PutGetFrom(c, true, k, v);
    }
  }

  lemma {:induction false} FoundFrom(s: string, bol: bool, k: string)
    requires Key(k) && NoLoneCR(s)
    ensures ParseFrom(s, bol, k).Some? <==> HasSite(s, bol, k)
  {
    hide Header, Site, Clean;
    if s != "" {
      SiteIsGreedy(s, k);
      NoLoneCRTail(s, 1);
      FoundFrom(s[1..], s[0] == '\n', k);
    }
  }

  /** The rotator finds a key, instead of raising, exactly when the reader finds it. */
  lemma FoundTogether(c: string, k: string, v: string)
    requires Key(k) && NoLoneCR(c) && '\\' !in v
    ensures RotateKey(c, k, v).Some? <==> ParseValue(c, k).Some?
  {
    FoundFrom(c, true, k);
  }

  // --------------------------------------------------------------------- frame

  /** A text cut at its replaced value segments. */
  datatype Piece = Kept(text: string) | Value(text: string)

  function Pieces(s: string, bol: bool, k: string): seq<Piece>
    requires k != ""
    decreases |s|
  {
    if s == "" then []
    else if bol && Site(s, k).Some? then
      var x := Site(s, k).value;
      var e := x + Run(s[x..]);
      [Kept(s[..x]), Value(s[x..e])] + Pieces(s[e..], s[e - 1] == '\n', k)
    else [Kept([s[0]])] + Pieces(s[1..], s[0] == '\n', k)
  }

  function Join(ps: seq<Piece>): string {
    if ps == [] then "" else ps[0].text + Join(ps[1..])
  }

  function Refill(ps: seq<Piece>, v: string): seq<Piece> {
    seq(|ps|, i requires 0 <= i < |ps| => if ps[i].Kept? then ps[i] else Value(v))
  }

  predicate HasValue(ps: seq<Piece>) { exists i :: 0 <= i < |ps| && ps[i].Value? }

  predicate OneLineValues(ps: seq<Piece>) {
    forall i :: 0 <= i < |ps| && ps[i].Value? ==> SingleLine(ps[i].text)
  }

  /** Frame.  Rotation replaces the value segments, each within one line, and no other
      character; and a text has a segment exactly when the key is found. */
  lemma {:induction false} OnlyValuesChange(s: string, bol: bool, k: string, v: string)
    requires k != ""
    ensures Join(Pieces(s, bol, k)) == s
    ensures Subst(s, bol, k, v) == Join(Refill(Pieces(s, bol, k), v))
    ensures OneLineValues(Pieces(s, bol, k))
    ensures HasSite(s, bol, k) <==> HasValue(Pieces(s, bol, k))
    decreases |s|
  {
    hide Site, Run, SingleLine, HasValue, OneLineValues, Join, Refill;
    if s == "" {
      NoPieces(v);
    } else if bol && Site(s, k).Some? {
      var x := Site(s, k).value;
      var e := x + Run(s[x..]);
      SitePieces(s, k, v, x, e);
      OnlyValuesChange(s[e..], s[e - 1] == '\n', k, v);
      hide *;
      RunIsOneLine(s, x);
      JoinSite(s[..x], s[x..e], Pieces(s[e..], s[e - 1] == '\n', k), v);
      Thirds(s, x, e);
    } else {
      OnlyValuesChange(s[1..], s[0] == '\n', k, v);
      JoinKept([s[0]], Pieces(s[1..], s[0] == '\n', k), v);
      assert s == [s[0]] + s[1..];
    }
  }

  lemma Thirds(s: string, x: nat, e: nat)
    requires x <= e <= |s|
    ensures s[..x] + s[x..e] + s[e..] == s
  {}

  lemma SitePieces(s: string, k: string, v: string, x: nat, e: nat)
    requires k != "" && s != "" && Site(s, k) == Some(x) && e == x + Run(s[x..])
    ensures 0 < x <= e <= |s| && HasSite(s, true, k)
    ensures Pieces(s, true, k) == [Kept(s[..x]), Value(s[x..e])] + Pieces(s[e..], s[e - 1] == '\n', k)
    ensures Subst(s, true, k, v) == s[..x] + v + Subst(s[e..], s[e - 1] == '\n', k, v)
  {
    hide Site, Run;
  }

  lemma NoPieces(v: string)
    ensures Join([]) == "" && Join(Refill([], v)) == "" && OneLineValues([]) && !HasValue([])
  {}

  lemma RunIsOneLine(s: string, x: nat)
    requires x <= |s|
    ensures SingleLine(s[x..x + Run(s[x..])])
  {
    assert s[x..x + Run(s[x..])] == s[x..][..Run(s[x..])];
  }

  lemma JoinKept(a: string, qs: seq<Piece>, v: string)
    ensures var ps := [Kept(a)] + qs;
      && Join(ps) == a + Join(qs) && Join(Refill(ps, v)) == a + Join(Refill(qs, v))
      && HasValue(ps) == HasValue(qs) && OneLineValues(ps) == OneLineValues(qs)
  {
    var ps := [Kept(a)] + qs;
    assert ps[1..] == qs && Refill(ps, v)[1..] == Refill(qs, v);
    assert forall i :: 0 <= i < |qs| ==> ps[i + 1] == qs[i];
    if HasValue(qs) {
      var i :| 0 <= i < |qs| && qs[i].Value?;
      assert ps[i + 1].Value?;
    }
  }

  lemma JoinValue(m: string, qs: seq<Piece>, v: string)
    requires SingleLine(m)
    ensures var ps := [Value(m)] + qs;
      && Join(ps) == m + Join(qs) && Join(Refill(ps, v)) == v + Join(Refill(qs, v))
      && HasValue(ps) && OneLineValues(ps) == OneLineValues(qs)
  {
    hide SingleLine;
    var ps := [Value(m)] + qs;
    assert ps[0].Value?;
    assert ps[1..] == qs && Refill(ps, v)[1..] == Refill(qs, v);
    assert forall i :: 0 <= i < |qs| ==> ps[i + 1] == qs[i];
  }

  lemma JoinSite(a: string, m: string, qs: seq<Piece>, v: string)
    requires SingleLine(m)
    ensures var ps := [Kept(a), Value(m)] + qs;
      && Join(ps) == a + m + Join(qs) && Join(Refill(ps, v)) == a + v + Join(Refill(qs, v))
      && HasValue(ps) && OneLineValues(ps) == OneLineValues(qs)
  {
    hide *;
    JoinValue(m, qs, v);
    JoinKept(a, [Value(m)] + qs, v);
    assert [Kept(a), Value(m)] + qs == [Kept(a)] + ([Value(m)] + qs);
    assert a + (m + Join(qs)) == a + m + Join(qs);
    assert a + (v + Join(Refill(qs, v))) == a + v + Join(Refill(qs, v));
  }

  // ---------------------------------------------------------------- other keys

  /** Where the key of a header stands: the last word before its `=`, the only one. */
  lemma HeaderWord(s: string, k: string) returns (p: nat)
    requires Key(k) && Header(s, k).Some?
    ensures var h := Header(s, k).value;
      && 1 < h <= |s| && s[h - 1] == '=' && (forall i :: 0 <= i < h - 1 ==> s[i] != '=')
      && p + |k| <= h - 1 && s[p..p + |k|] == k
      && (forall i :: p + |k| <= i < h - 1 ==> Space(s[i]))
      && (p == 0 || Space(s[p - 1]))
  {
    hide AfterKey, Exported, Spaces;
    var q := Spaces(s);
    if Exported(s[q..], k).Some? {
      p := ExportedWord(s, q, k);
    } else {
      p := q;
      AfterKeyWord(s, p, k);
    }
  }

  lemma ExportedWord(s: string, q: nat, k: string) returns (p: nat)
    requires Key(k) && q <= |s| && Exported(s[q..], k).Some?
    ensures var h := q + Exported(s[q..], k).value;
      && q < p && p + |k| <= h - 1 < |s| && s[h - 1] == '=' && s[p..p + |k|] == k
      && (forall i :: q <= i < h - 1 ==> s[i] != '=')
      && (forall i :: p + |k| <= i < h - 1 ==> Space(s[i]))
      && q + 6 < p && s[q..q + 6] == "export" && (forall i :: q + 6 <= i < p ==> Space(s[i]))
  {
    hide AfterKey, Spaces;
    var t := s[q..];
    var w := Spaces(t[6..]);
    p := q + 6 + w;
    assert t[6 + w..] == s[p..];
    AfterKeyWord(s, p, k);
    var x := "export";
    assert '=' !in x && t[..6] == x;
    forall i | q <= i < p ensures s[i] != '=' {
      if i < q + 6 { assert s[i] == t[..6][i - q]; } else { assert s[i] == t[6..][i - q - 6]; }
    }
    assert t[..6] == s[q..q + 6];
    forall i | q + 6 <= i < p ensures Space(s[i]) { assert s[i] == t[6..][i - q - 6]; }
  }

  lemma AfterKeyWord(s: string, p: nat, k: string)
    requires Key(k) && p <= |s| && AfterKey(s[p..], k).Some?
    ensures var h := p + AfterKey(s[p..], k).value;
      && p + |k| <= h - 1 < |s| && s[h - 1] == '=' && s[p..p + |k|] == k
      && (forall i :: p <= i < h - 1 ==> s[i] != '=')
      && (forall i :: p + |k| <= i < h - 1 ==> Space(s[i]))
  {
    hide Spaces;
    var t := s[p..];
    var h := p + AfterKey(t, k).value;
    assert forall i :: 0 <= i < |k| ==> s[p + i] == t[i] == k[i];
    forall i | p <= i < p + |k| ensures s[i] != '=' { assert s[p + (i - p)] == k[i - p]; }
    assert t[|k|..] == s[p + |k|..];
    forall i | p + |k| <= i < h - 1 ensures Space(s[i]) { assert s[i] == t[|k|..][i - p - |k|]; }
  }

  /** One `=` belongs to one key. */
  lemma HeaderOfOneKey(s: string, k: string, j: string, y: nat)
    requires Key(k) && Key(j) && y < |s| && (y == 0 || s[y - 1] == '\n')
    ensures Header(s, k) == Some(|s|) && Header(s[y..], j).Some? ==> j == k
  {
    hide Header;
    if Header(s, k) == Some(|s|) && Header(s[y..], j).Some? {
      var p := HeaderWord(s, k);
      var q := HeaderWord(s[y..], j);
      var g := y + Header(s[y..], j).value;
      assert s[g - 1] == s[y..][g - y - 1];
      assert g == |s|;
      var m := y + q;
      assert s[m..m + |j|] == s[y..][q..q + |j|] == j;
      assert m == 0 || Space(s[m - 1]) by { if 0 < q { assert s[m - 1] == s[y..][q - 1]; } }
      forall i | m + |j| <= i < g - 1 ensures Space(s[i]) { assert s[i] == s[y..][i - y]; }
      SameWord(s, p, k, m, j);
    }
  }

  /** The last word before the end of a text is where it is. */
  lemma SameWord(s: string, p: nat, k: string, m: nat, j: string)
    requires Key(k) && Key(j) && p + |k| < |s| && m + |j| < |s|
    requires s[p..p + |k|] == k && s[m..m + |j|] == j
    requires forall i :: p + |k| <= i < |s| - 1 ==> Space(s[i])
    requires forall i :: m + |j| <= i < |s| - 1 ==> Space(s[i])
    requires (p == 0 || Space(s[p - 1])) && (m == 0 || Space(s[m - 1]))
    ensures j == k
  {
    forall i | p <= i < p + |k| ensures !Space(s[i]) { assert s[i] == k[i - p]; }
    forall i | m <= i < m + |j| ensures !Space(s[i]) { assert s[i] == j[i - m]; }
    assert !Space(s[p + |k| - 1]) && !Space(s[m + |j| - 1]);
    assert p + |k| == m + |j|;
    assert p == m;
  }

  predicate StartsLine(u: string, y: nat, bol: bool)
    requires y < |u|
  {
    if y == 0 then bol else u[y - 1] == '\n'
  }

  /** No line start of u begins a header of j, whatever follows u. */
  ghost predicate Quiet(u: string, h: nat, bol: bool, j: string)
    requires Key(j)
  {
    && h <= |u|
    && (if h == 0 then !bol else u[h - 1] == '=')
    && (forall i :: h <= i < |u| ==> u[i] != '\n')
    && (forall y: nat :: y < h && StartsLine(u, y, bol) ==> Header(u[y..h], j).None?)
  }

  lemma QuietTail(u: string, h: nat, bol: bool, j: string)
    requires Key(j) && Quiet(u, h, bol, j) && u != ""
    ensures Quiet(u[1..], if h == 0 then 0 else h - 1, u[0] == '\n', j)
  {
    var t := u[1..];
    if h > 0 {
      var b := u[0] == '\n';
      forall y: nat | y < h - 1 && StartsLine(t, y, b)
        ensures Header(t[y..h - 1], j).None?
      {
        assert t[y..h - 1] == u[y + 1..h];
        assert StartsLine(u, y + 1, bol);
      }
    }
  }

  lemma QuietHead(u: string, h: nat, bol: bool, j: string, rest: string)
    requires Key(j) && Quiet(u, h, bol, j) && bol
    ensures Header(u + rest, j).None?
  {
    hide Header;
    assert u[0..h] == u[..h] && StartsLine(u, 0, bol);
    HeaderLocal(u[..h], u[h..] + rest, j);
    assert u + rest == u[..h] + (u[h..] + rest);
  }

  lemma {:induction false} ParseSkips(u: string, h: nat, bol: bool, j: string, rest: string)
    requires Key(j) && Quiet(u, h, bol, j)
    ensures ParseFrom(u + rest, bol, j) == ParseFrom(rest, false, j)
  {
    hide Header, Quiet;
    if u == "" {
      assert u + rest == rest;
      assert !bol by { QuietEmpty(h, bol, j); }
    } else {
      if bol { QuietHead(u, h, bol, j, rest); }
      QuietTail(u, h, bol, j);
      ParseSkips(u[1..], if h == 0 then 0 else h - 1, u[0] == '\n', j, rest);
      assert (u + rest)[1..] == u[1..] + rest;
    }
  }

  lemma QuietEmpty(h: nat, bol: bool, j: string)
    requires Key(j) && Quiet("", h, bol, j)
    ensures !bol
  {}

  lemma SubstStep(u: string, rest: string, bol: bool, j: string, v: string)
    requires Key(j) && u != "" && (bol ==> Header(u + rest, j).None?)
    requires Subst(u[1..] + rest, u[0] == '\n', j, v) == u[1..] + Subst(rest, false, j, v)
    ensures Subst(u + rest, bol, j, v) == u + Subst(rest, false, j, v)
  {
    assert j != "";
    hide *;
    HeadOfJoined(u, rest);
    SubstPast(u + rest, bol, j, v);
    HeadOfJoined(u, Subst(rest, false, j, v));
  }

  lemma HeadOfJoined(u: string, a: string)
    requires u != ""
    ensures (u + a)[0] == u[0] && (u + a)[1..] == u[1..] + a && [u[0]] + (u[1..] + a) == u + a
  {}

  lemma SubstPast(s: string, bol: bool, j: string, v: string)
    requires Key(j) && s != "" && (bol ==> Header(s, j).None?)
    ensures Subst(s, bol, j, v) == [s[0]] + Subst(s[1..], s[0] == '\n', j, v)
  {
    hide Header;
  }

  lemma {:induction false} SubstSkips(u: string, h: nat, bol: bool, j: string, rest: string, v: string)
    requires Key(j) && Quiet(u, h, bol, j)
    ensures Subst(u + rest, bol, j, v) == u + Subst(rest, false, j, v)
  {
    hide Header, Quiet;
    if u == "" {
      assert u + rest == rest;
      assert !bol by { QuietEmpty(h, bol, j); }
    } else {
      if bol { QuietHead(u, h, bol, j, rest); }
      QuietTail(u, h, bol, j);
      SubstSkips(u[1..], if h == 0 then 0 else h - 1, u[0] == '\n', j, rest, v);
      SubstStep(u, rest, bol, j, v);
    }
  }

  /** Each assignment to k has a non-blank value on the line of its `=`. */
  predicate OwnLine(s: string, bol: bool, k: string)
    requires Key(k)
  {
    s == "" ||
    (&& (bol && Header(s, k).Some? ==>
          (HeaderBounds(s, k);
           var h := Header(s, k).value;
           h + Spaces(s[h..]) < |s| && forall i :: h <= i < h + Spaces(s[h..]) ==> s[i] != '\n'))
     && OwnLine(s[1..], s[0] == '\n', k))
  }

  lemma {:induction false} OwnLineTail(s: string, bol: bool, k: string, e: nat)
    requires Key(k) && OwnLine(s, bol, k) && 0 < e <= |s|
    ensures OwnLine(s[e..], s[e - 1] == '\n', k)
    decreases e
  {
    hide Header;
    if 1 < e {
      OwnLineTail(s[1..], s[0] == '\n', k, e - 1);
      assert s[1..][e - 1..] == s[e..];
    }
  }

  /** A header is quiet for every other key up to the end of its line. */
  lemma SiteQuiet(s: string, k: string, h: nat, m: nat, j: string)
    requires Key(k) && Key(j) && j != k && h <= m <= |s| && Header(s, k) == Some(h)
    requires forall i :: h <= i < m ==> s[i] != '\n'
    ensures Quiet(s[..m], h, true, j)
  {
    hide Header;
    HeaderEndsAtEquals(s, k);
    assert s[..h] + "" == s[..h];
    var u := s[..m];
    assert u[..h] == s[..h];
    forall y: nat | y < h && StartsLine(u, y, true) ensures Header(u[y..h], j).None? {
      assert u[y..h] == s[..h][y..];
      if Header(u[y..h], j).Some? {
        assert y > 0 ==> s[..h][y - 1] == u[y - 1];
        HeaderOfOneKey(s[..h], k, j, y);
      }
    }
  }

  lemma QuietRefill(s: string, h: nat, x: nat, e: nat, j: string, v: string)
    requires Key(j) && h <= x <= e <= |s| && Quiet(s[..e], h, true, j) && SingleLine(v)
    ensures Quiet(s[..x] + v, h, true, j)
  {
    hide Header;
    var u := s[..e];
    var t := s[..x] + v;
    assert forall i :: 0 <= i < x ==> t[i] == u[i];
    forall y: nat | y < h && StartsLine(t, y, true) ensures Header(t[y..h], j).None? {
      assert t[y..h] == u[y..h] && StartsLine(u, y, true);
    }
  }

  /** No line ends between the first character of r, white space aside, and the first value
      of k in it: the reader of an assignment that r follows returns that value too. */
  predicate Reaches(r: string, k: string)
    requires k != ""
  {
    HasSite(r, false, k) && forall i :: Spaces(r) <= i < ValueStart(r, false, k) ==> !Break(r[i])
  }

  /** Rotating k cannot change what the reader finds for j: before the assignment of j that
      it reads, no value of k is found below the line of its `=`; and the line it reads there
      does not reach the value of k. */
  predicate Apart(s: string, bol: bool, k: string, j: string)
    requires Key(k) && Key(j)
    decreases |s|
  {
    if s == "" then true
    else if bol && Header(s, j).Some? then
      HeaderBounds(s, j);
      !Reaches(s[Header(s, j).value..], k)
    else if bol && Header(s, k).Some? then
      HeaderBounds(s, k);
      var h := Header(s, k).value;
      var x := h + Spaces(s[h..]);
      var e := x + Run(s[x..]);
      (forall i :: h <= i < x ==> s[i] != '\n') && Apart(s[e..], false, k, j)
    else
      Apart(s[1..], s[0] == '\n', k, j)
  }

  /** The first rewritten site: everything before its value is kept, and the new value ends
      its line. */
  lemma {:induction false} SubstFirst(s: string, bol: bool, k: string, v: string)
    requires Key(k) && NoLoneCR(s) && HasSite(s, bol, k)
    ensures Filled(s, ValueStart(s, bol, k), v, Subst(s, bol, k, v)) && '=' in s[..ValueStart(s, bol, k)]
    decreases |s|
  {
    hide Header, Site, Run, Spaces, Break, Filled, Subst;
    SiteIsGreedy(s, k);
    if bol && Header(s, k).Some? {
      SubstFirstAt(s, k, v);
    } else {
      NoLoneCRTail(s, 1);
      SubstFirst(s[1..], s[0] == '\n', k, v);
      SubstFirstPast(s, bol, k, v, ValueStart(s[1..], s[0] == '\n', k));
    }
  }

  lemma SubstFirstPast(s: string, bol: bool, k: string, v: string, x: nat)
    requires Key(k) && s != "" && (bol ==> Header(s, k).None?) && x <= |s[1..]| && '=' in s[1..][..x]
    requires Filled(s[1..], x, v, Subst(s[1..], s[0] == '\n', k, v))
    ensures Filled(s, x + 1, v, Subst(s, bol, k, v)) && '=' in s[..x + 1]
  {
    assert k != "";
    hide *;
    SubstPast(s, bol, k, v);
    FilledBehind(s, Subst(s[1..], s[0] == '\n', k, v), x, v);
    assert s[..x + 1] == [s[0]] + s[1..][..x];
  }

  lemma SubstFirstAt(s: string, k: string, v: string)
    requires Key(k) && NoLoneCR(s) && Header(s, k).Some?
    ensures Site(s, k).Some? && Filled(s, Site(s, k).value, v, Subst(s, true, k, v)) && '=' in s[..Site(s, k).value]
  {
    assert k != "";
    SiteIsGreedy(s, k);
    hide *;
    var h, x, e := SiteShape(s, k);
    SiteBounds(s, k, h, x, e);
    Site3Header(s, k, h, x, e);
    RewriteAt(s, k, h, x, e, v);
    FilledAt(s, k, x, e, v);
    HeaderAtEquals(s, k);
    assert s[..x][h - 1] == '=';
  }

  /** t is s up to x, then v, then nothing or a line end. */
  predicate Filled(s: string, x: nat, v: string, t: string) {
    && x <= |s| && x + |v| <= |t| && t[..x] == s[..x] && t[x..x + |v|] == v
    && (x + |v| < |t| ==> Break(t[x + |v|]))
  }

  lemma FilledAt(s: string, k: string, x: nat, e: nat, v: string)
    requires k != "" && x <= e <= |s| && (e < |s| ==> Break(s[e]))
    ensures Filled(s, x, v, s[..x] + v + Subst(s[e..], false, k, v))
  {
    SubstHead(s[e..], k, v);
  }

  lemma FilledBehind(s: string, r: string, x: nat, v: string)
    requires s != "" && Filled(s[1..], x, v, r)
    ensures Filled(s, x + 1, v, [s[0]] + r)
  {
    hide Break;
    var t := [s[0]] + r;
    assert t[1..] == r && s == [s[0]] + s[1..];
    assert t[..x + 1] == [s[0]] + r[..x];
    assert s[..x + 1] == [s[0]] + s[1..][..x];
    assert t[x + 1..x + 1 + |v|] == r[x..x + |v|];
  }

  lemma FirstLineCut(a: string, b: string, w: nat)
    requires w < |a| && Spaces(a) == w && Run(a[w..]) < |a| - w
    ensures FirstLine(a + b) == FirstLine(a)
  {
    hide *;
    SpacesCut(a, b);
    RunLocal(a[w..], b);
    assert (a + b)[w..] == a[w..] + b;
    var n := Run(a[w..]);
    FirstLineAt(a, w, n);
    FirstLineAt(a + b, w, n);
    assert (a + b)[w..w + n] == a[w..w + n];
  }

  lemma SpacesCut(a: string, b: string)
    requires Spaces(a) < |a|
    ensures Spaces(a + b) == Spaces(a)
  {
    hide Space;
    SpacesAt(a + b, 0, Spaces(a));
    assert (a + b)[0..] == a + b;
  }

  lemma RunMeets(r: string, w: nat, x: nat, i: nat)
    requires w <= i < x <= |r| && Break(r[i])
    ensures Run(r[..x][w..]) < x - w
  {
    assert r[..x][w..][i - w] == r[i];
  }

  lemma CutBefore(r: string, x: nat, i: nat, b: string)
    requires x <= |r| && Spaces(r) <= i < x && Break(r[i])
    ensures FirstLine(r[..x] + b) == FirstLine(r[..x])
  {
    hide Spaces, Run, Break, Space, FirstLine;
    var w := Spaces(r);
    RunMeets(r, w, x, i);
    SpacesAt(r[..x], 0, w);
    assert r[..x][0..] == r[..x];
    FirstLineCut(r[..x], b, w);
  }

  /** A line that does not reach the value of k is read the same after any rotation of k. */
  lemma UnreachedKept(r: string, k: string, v: string)
    requires Key(k) && NoLoneCR(r) && !Reaches(r, k)
    ensures FirstLine(Subst(r, false, k, v)) == FirstLine(r)
  {
    hide Subst, FirstLine, Break, Run, Spaces, HasSite, ValueStart;
    if HasSite(r, false, k) {
      SubstFirst(r, false, k, v);
      var x := ValueStart(r, false, k);
      var i :| Spaces(r) <= i < x && Break(r[i]);
      var t := Subst(r, false, k, v);
      CutBefore(r, x, i, r[x..]);
      CutBefore(r, x, i, t[x..]);
      assert r == r[..x] + r[x..] && t == r[..x] + t[x..];
    } else {
      NoSiteNoChange(r, false, k, v);
    }
  }

  lemma CleanLast(s: string)
    requires s != "" && Solid(s[|s| - 1])
    ensures Clean(s) != "" && Clean(s)[|Clean(s)| - 1] == s[|s| - 1]
  {
    LstripLast(s, Space);
    LstripLast(Lstrip(s, Space), DoubleQuote);
    LstripLast(Lstrip(Lstrip(s, Space), DoubleQuote), SingleQuote);
  }

  lemma {:induction false} LstripLast(s: string, p: char -> bool)
    requires s != "" && !p(s[|s| - 1])
    ensures var t := Lstrip(s, p); t != "" && t[|t| - 1] == s[|s| - 1] && Rstrip(t, p) == t
  {
    if p(s[0]) { LstripLast(s[1..], p); }
  }

  /** A line that reaches the value of k is read with it. */
  lemma ReachedRead(r: string, k: string, c: char)
    requires Key(k) && NoLoneCR(r) && Reaches(r, k) && Solid(c)
    ensures var got := Clean(FirstLine(Subst(r, false, k, [c]))); got != "" && got[|got| - 1] == c
  {
    hide Subst, FirstLine, Run, Spaces, Clean, HasSite, ValueStart;
    SubstFirst(r, false, k, [c]);
    var x := ValueStart(r, false, k);
    SpacesBefore(r, x);
    ReadWith(r, Spaces(r), x, c, Subst(r, false, k, [c]));
  }

  lemma SpacesBefore(r: string, x: nat)
    requires x <= |r| && '=' in r[..x]
    ensures Spaces(r) < x
  {
    var i :| 0 <= i < x && r[..x][i] == '=';
    assert !Space(r[i]);
  }

  lemma ReadWith(r: string, w: nat, x: nat, c: char, t: string)
    requires w == Spaces(r) < x && Filled(r, x, [c], t) && Solid(c)
    requires forall i :: w <= i < x ==> !Break(r[i])
    ensures var got := Clean(FirstLine(t)); got != "" && got[|got| - 1] == c
  {
    hide FirstLine, Run, Spaces, Clean;
    assert forall i :: 0 <= i < x ==> t[i] == t[..x][i] == r[..x][i];
    assert t[x] == t[x..x + 1][0] == c;
    SpacesAt(t, 0, w);
    assert t[0..] == t;
    RunAt(t, w, x + 1);
    FirstLineAt(t, w, x + 1 - w);
    CleanLast(t[w..x + 1]);
  }

  /** What the reader finds for j where it finds j: the line behind it, rotated. */
  lemma OtherAtItsHeader(s: string, k: string, v: string, j: string)
    requires Key(k) && Key(j) && j != k && NoLoneCR(s) && Header(s, j).Some?
    ensures 1 < Header(s, j).value <= |s|
    ensures ParseFrom(s, true, j) == Some(Clean(FirstLine(s[Header(s, j).value..])))
    ensures ParseFrom(Subst(s, true, k, v), true, j)
      == Some(Clean(FirstLine(Subst(s[Header(s, j).value..], false, k, v))))
  {
    hide Header, ParseFrom, Subst, FirstLine, Clean, Quiet;
    ReadAtHeader(s, j);
    var g := Header(s, j).value;
    SiteQuiet(s, j, g, g, k);
    SubstSkips(s[..g], g, true, k, s[g..], v);
    assert s == s[..g] + s[g..];
    HeaderEndsAtEquals(s, j);
    var r := Subst(s[g..], false, k, v);
    ReadAtHeader(s[..g] + r, j);
    assert (s[..g] + r)[g..] == r;
  }

  /** What it finds for j past a value of k on the line of its `=`: what it finds behind. */
  lemma OtherPastSite(s: string, k: string, v: string, j: string, h: nat, x: nat, e: nat)
    requires Key(k) && Key(j) && j != k && NoLoneCR(s) && SingleLine(v) && Site3(s, k, h, x, e)
    requires forall i :: h <= i < x ==> s[i] != '\n'
    ensures ParseFrom(s, true, j) == ParseFrom(s[e..], false, j)
    ensures ParseFrom(Subst(s, true, k, v), true, j) == ParseFrom(Subst(s[e..], false, k, v), false, j)
  {
    hide Header, Site, ParseFrom, Subst, Quiet, Spaces, Run;
    RewriteAt(s, k, h, x, e, v);
    Site3Header(s, k, h, x, e);
    SiteQuiet(s, k, h, e, j);
    ParseSkips(s[..e], h, true, j, s[e..]);
    assert s == s[..e] + s[e..];
    QuietRefill(s, h, x, e, j, v);
    ParseSkips(s[..x] + v, h, true, j, Subst(s[e..], false, k, v));
  }

  /** What it finds for j past a character that starts no assignment of either. */
  lemma OtherPast(s: string, bol: bool, k: string, v: string, j: string)
    requires Key(k) && Key(j) && NoLoneCR(s) && s != ""
    requires bol ==> Header(s, k).None? && Header(s, j).None?
    ensures ParseFrom(s, bol, j) == ParseFrom(s[1..], s[0] == '\n', j)
    ensures ParseFrom(Subst(s, bol, k, v), bol, j) == ParseFrom(Subst(s[1..], s[0] == '\n', k, v), s[0] == '\n', j)
  {
    hide Header, Site;
    SubstPast(s, bol, k, v);
    var r := Subst(s[1..], s[0] == '\n', k, v);
    var t := Subst(s, bol, k, v);
    assert t == [s[0]] + r && t[1..] == r;
    if bol { HeaderStaysAbsent(s, k, v, j); }
  }

  lemma {:induction false} ApartKeeps(s: string, bol: bool, k: string, v: string, j: string)
    requires Key(k) && Key(j) && j != k && NoLoneCR(s) && SingleLine(v) && Apart(s, bol, k, j)
    ensures ParseFrom(Subst(s, bol, k, v), bol, j) == ParseFrom(s, bol, j)
    decreases |s|
  {
    hide Header, Reaches, ParseFrom, Subst, Spaces, Run;
    if s == "" {
      SubstNothing(bol, k, v);
    } else if bol && Header(s, j).Some? {
      OtherAtItsHeader(s, k, v, j);
      var g := Header(s, j).value;
      NoLoneCRTail(s, g);
      UnreachedKept(s[g..], k, v);
    } else if bol && Header(s, k).Some? {
      var h, x, e := SiteShape(s, k);
      Site3Header(s, k, h, x, e);
      OtherPastSite(s, k, v, j, h, x, e);
      ApartKeeps(s[e..], false, k, v, j);
    } else {
      NoLoneCRTail(s, 1);
      OtherPast(s, bol, k, v, j);
      ApartKeeps(s[1..], s[0] == '\n', k, v, j);
    }
  }

  lemma SubstNothing(bol: bool, k: string, v: string)
    requires k != ""
    ensures Subst("", bol, k, v) == ""
  {}

  /** An assignment to j put where k's value stood, below the line of k: the reader finds it. */
  lemma Planted(s: string, k: string, h: nat, x: nat, e: nat, j: string, c: char)
    requires Key(k) && Key(j) && j != k && NoLoneCR(s) && Site3(s, k, h, x, e) && Solid(c)
    requires exists i :: h <= i < x && s[i] == '\n'
    ensures ParseFrom(Subst(s, true, k, j + "=" + [c]), true, j) == Some([c])
  {
    hide Header, Subst, ParseFrom, Quiet, Spaces, Run, Clean, Space, Break;
    var v := j + "=" + [c];
    RewriteAt(s, k, h, x, e, v);
    Site3Header(s, k, h, x, e);
    var r := Subst(s[e..], false, k, v);
    SubstHead(s[e..], k, v);
    var i := FirstNewline(s, h, x);
    SiteQuiet(s, k, h, i, j);
    var m := s[i + 1..x];
    var t := m + j + "=" + [c] + r;
    PlantedLine(s, i, x, v, r, t, m, j, c);
    ParseSkips(s[..i], h, true, j, ['\n'] + t);
    NewlinePassed(t, j);
    PlantedRead(m, j, c, r);
  }

  lemma PlantedLine(s: string, i: nat, x: nat, v: string, r: string, t: string, m: string, j: string, c: char)
    requires i < x <= |s| && s[i] == '\n' && m == s[i + 1..x] && v == j + "=" + [c] && t == m + j + "=" + [c] + r
    ensures s[..x] + v + r == s[..i] + (['\n'] + t)
  {
    assert s[..x] == s[..i] + ['\n'] + m;
  }

  lemma NewlinePassed(t: string, j: string)
    requires Key(j)
    ensures ParseFrom(['\n'] + t, false, j) == ParseFrom(t, true, j)
  {
    assert (['\n'] + t)[1..] == t;
  }

  lemma FirstNewline(s: string, h: nat, x: nat) returns (i: nat)
    requires x <= |s| && exists i :: h <= i < x && s[i] == '\n'
    ensures h <= i < x && s[i] == '\n' && forall m :: h <= m < i ==> s[m] != '\n'
    decreases x - h
  {
    if s[h] == '\n' { i := h; } else { i := FirstNewline(s, h + 1, x); }
  }

  lemma PlantedRead(m: string, j: string, c: char, r: string)
    requires Key(j) && Blank(m) && Solid(c) && (r != "" ==> Break(r[0]))
    ensures ParseFrom(m + j + "=" + [c] + r, true, j) == Some([c])
  {
    hide Header, ParseFrom, Clean;
    var t := m + j + "=" + [c] + r;
    var h := |m| + |j| + 1;
    HeaderIndented(m, j);
    assert t[..h] == m + j + "=";
    assert t[h] == c;
    assert r != "" ==> t[h + 1] == r[0];
    ReadAt(t, j, h, h, h + 1);
    assert t[h..h + 1] == [c];
    CleanFixes([c]);
  }

  lemma HeaderIndented(m: string, j: string)
    requires Key(j) && Blank(m)
    ensures Header(m + j + "=", j) == Some(|m| + |j| + 1)
  {
    hide AfterKey, Exported, Spaces;
    var s, u := m + j + "=", j + "=";
    assert s == m + u;
    SpacesSkip(m, u);
    HeaderOfKey(j);
    assert u[0] == j[0];
    SpacesAt(u, 0, 0);
    assert u[0..] == u && s[|m|..] == u;
  }

  /** Where the keys are not apart, a value can be rotated in whose last character the reader
      of j returns. */
  lemma {:induction false} Clash(s: string, bol: bool, k: string, j: string, c: char) returns (v: string)
    requires Key(k) && Key(j) && j != k && '\\' !in j && NoLoneCR(s) && !Apart(s, bol, k, j)
    requires Solid(c) && c != '\\'
    ensures SingleLine(v) && '\\' !in v
    ensures var got := ParseFrom(Subst(s, bol, k, v), bol, j);
      got.Some? && got.value != "" && got.value[|got.value| - 1] == c
    decreases |s|
  {
    hide Header, Reaches, ParseFrom, Subst, Spaces, Run, Clean;
    if bol && Header(s, j).Some? {
      v := [c];
      OtherAtItsHeader(s, k, v, j);
      var g := Header(s, j).value;
      NoLoneCRTail(s, g);
      ReachedRead(s[g..], k, c);
    } else if bol && Header(s, k).Some? {
      var h, x, e := SiteShape(s, k);
      Site3Header(s, k, h, x, e);
      if exists i :: h <= i < x && s[i] == '\n' {
        v := j + "=" + [c];
        Planted(s, k, h, x, e, j, c);
        assert forall i :: 0 <= i < |j| ==> !Space(j[i]);
      } else {
        v := Clash(s[e..], false, k, j, c);
        OtherPastSite(s, k, v, j, h, x, e);
      }
    } else {
      NoLoneCRTail(s, 1);
      v := Clash(s[1..], s[0] == '\n', k, j, c);
      OtherPast(s, bol, k, v, j);
    }
  }

  /** Another key keeps its value under every rotation of k exactly when the two are apart in
      the text. */
  lemma OtherKeysKept(c: string, k: string, j: string)
    requires Key(k) && Key(j) && j != k && NoLoneCR(c) && ParseValue(c, k).Some?
    ensures Apart(c, true, k, j) ==>
      forall v :: SingleLine(v) && '\\' !in v ==> ParseValue(Rotated(c, k, v), j) == ParseValue(c, j)
    ensures '\\' !in j ==>
      (Apart(c, true, k, j) <==>
        forall v :: SingleLine(v) && '\\' !in v ==> ParseValue(Rotated(c, k, v), j) == ParseValue(c, j))
  {
    hide Apart, ParseFrom, Subst, SingleLine;
    FoundFrom(c, true, k);
    if Apart(c, true, k, j) {
      forall v | SingleLine(v) && '\\' !in v ensures ParseValue(Rotated(c, k, v), j) == ParseValue(c, j) {
        ApartKeeps(c, true, k, v, j);
      }
    } else if '\\' !in j {
      var v := Clash(c, true, k, j, 'x');
      var u := Clash(c, true, k, j, 'y');
      assert ParseValue(Rotated(c, k, u), j) != ParseValue(Rotated(c, k, v), j);
    }
  }

  lemma {:induction false} NewlineBeforeSite(s: string, k: string) returns (p: nat)
    requires k != "" && HasSite(s, false, k)
    ensures p < ValueStart(s, false, k) && s[p] == '\n'
    decreases |s|
  {
    hide Site;
    if s[0] == '\n' { p := 0; } else { p := NewlineBeforeSite(s[1..], k); p := p + 1; }
  }

  /** Where every assignment of both keys has its value on its own line, they are apart. */
  lemma {:induction false} OwnLinesAreApart(s: string, bol: bool, k: string, j: string)
    requires Key(k) && Key(j) && j != k && OwnLine(s, bol, k) && OwnLine(s, bol, j)
    ensures Apart(s, bol, k, j)
    decreases |s|
  {
    hide Header, HasSite, ValueStart, Run, Spaces, Space;
    if s == "" {
    } else if bol && Header(s, j).Some? {
      HeaderBounds(s, j);
      var r := s[Header(s, j).value..];
      if HasSite(r, false, k) {
        var p := NewlineBeforeSite(r, k);
        assert s[Header(s, j).value + p] == '\n';
      }
    } else if bol && Header(s, k).Some? {
      HeaderBounds(s, k);
      var x := Header(s, k).value + Spaces(s[Header(s, k).value..]);
      var e := x + Run(s[x..]);
      OwnLineTail(s, bol, k, e);
      OwnLineTail(s, bol, j, e);
      HeaderAtEquals(s, k);
      assert e > x ==> s[e - 1] == s[x..][e - 1 - x];
      OwnLinesAreApart(s[e..], false, k, j);
    } else {
      OwnLinesAreApart(s[1..], s[0] == '\n', k, j);
    }
  }

  // ----------------------------------------------------------- where it falls short

  lemma HeaderOfKey(k: string)
    requires Key(k)
    ensures Header(k + "=", k) == Some(|k| + 1)
  {
    var s := k + "=";
    assert Spaces(s) == 0 && s[0..] == s;
    if "export" <= s && 6 < |s| { assert s[6..][0] == s[6]; }
    assert s[|k|..] == "=";
    assert AfterKey(s, k) == Some(|k| + 1);
  }

  lemma NextLineSite(k: string, line: string, rest: string)
    requires Key(k) && line != "" && SingleLine(line) && !Space(line[0]) && (rest != "" ==> Break(rest[0]))
    ensures var s := k + "=\n" + line + rest;
      && Site3(s, k, |k| + 1, |k| + 2, |k| + 2 + |line|)
      && s[..|k| + 2] == k + "=\n" && s[|k| + 1] == '\n' && s[|k| + 2 + |line|..] == rest
  {
    hide Header;
    HeaderOfKey(k);
    var s := k + "=\n" + line + rest;
    var h := |k| + 1;
    var x := h + 1;
    assert s[..h] == k + "=";
    assert forall i :: x <= i < x + |line| ==> s[i] == line[i - x];
    assert rest != "" ==> s[x + |line|] == rest[0];
  }

  lemma NotOwnLine(s: string, k: string, h: nat, x: nat, e: nat)
    requires Key(k) && Site3(s, k, h, x, e) && h < x && s[h] == '\n'
    ensures !OwnLine(s, true, k)
  {
    hide Header, Spaces;
    Site3Header(s, k, h, x, e);
  }

  /** A key without a value is read from the line below it; so rotating the key on that line
      changes what is read for the other. */
  lemma EmptyValueReadsRotated(j: string, k: string, a: string, v: string)
    requires Key(k) && Key(j) && j != k && '\\' !in v && SingleLine(v)
    requires a != "" && SingleLine(a) && !Space(a[0])
    ensures var c := j + "=\n" + k + "=" + a;
      ParseValue(c, j) == Some(Clean(k + "=" + a)) && ParseValue(Rotated(c, k, v), j) == Some(Clean(k + "=" + v))
  {
    var below := k + "=" + a;
    var r := "\n" + below;
    var c := j + "=\n" + k + "=" + a;
    assert c == (j + "=") + r;
    HeaderOfKey(j);
    HeaderLocal(j + "=", r, j);
    RotatedBelow(below, k, a, v);
    BelowHasNoLoneCR(j, k, a);
    RotatedIsSubst(c, k, v);
    hide *;
    OtherAtItsHeader(c, k, v, j);
    assert c[|j| + 1..] == r;
    LineBelow(k, a);
    LineBelow(k, v);
  }

  lemma RotatedBelow(below: string, k: string, a: string, v: string)
    requires Key(k) && SingleLine(v)
    requires a != "" && SingleLine(a) && !Space(a[0]) && below == k + "=" + a
    ensures Subst("\n" + below, false, k, v) == "\n" + (k + "=" + v)
  {
    hide Header, Site3, Subst, HasSite;
    ValueSite(k, a, "");
    assert k + "=" + a + "" == below;
    SiteBounds(below, k, |k| + 1, |k| + 1, |k| + 1 + |a|);
    RewriteAt(below, k, |k| + 1, |k| + 1, |k| + 1 + |a|, v);
    SubstPast("\n" + below, false, k, v);
    assert ("\n" + below)[1..] == below;
    SubstHead(below[|below|..], k, v);
    assert below[..|k| + 1] == k + "=";
    assert k + "=" + v + "" == k + "=" + v;
  }

  lemma BelowHasNoLoneCR(j: string, k: string, a: string)
    requires Key(k) && Key(j) && SingleLine(a)
    ensures NoLoneCR(j + "=\n" + k + "=" + a)
  {
    assert forall c :: c in j || c in k || c in a ==> c != '\r';
    assert forall i :: 0 <= i < |j + "=\n" + k + "=" + a| ==> (j + "=\n" + k + "=" + a)[i] in j + "=\n" + k + "=" + a;
  }

  lemma RotatedIsSubst(c: string, k: string, v: string)
    requires Key(k) && '\\' !in v
    ensures Rotated(c, k, v) == Subst(c, true, k, v)
  {
    if !HasSite(c, true, k) { NoSiteNoChange(c, true, k, v); }
  }

  lemma LineBelow(k: string, v: string)
    requires Key(k) && SingleLine(v)
    ensures FirstLine("\n" + (k + "=" + v)) == k + "=" + v
  {
    var u := k + "=" + v;
    FirstLineSkips("\n", u);
    assert u[0..] == u;
    assert forall i :: 0 <= i < |k| ==> u[i] == k[i];
    SpacesAt(u, 0, 0);
    RunAt(u, 0, |u|);
    FirstLineAt(u, 0, |u|);
  }

  /** Emptying the value of a line that ends in a newline and then setting it is not setting
      it: the second rotation writes below the line.  Of the last line of a text, it is. */
  lemma EmptiedThenSet(k: string, a: string, v: string, last: bool)
    requires Key(k) && a != "" && SingleLine(a) && !Space(a[0])
    requires v != "" && SingleLine(v) && '\\' !in v
    ensures var c := k + "=" + a + if last then "" else "\n";
      && RotateKey(c, k, "").Some?
      && (RotateKey(RotateKey(c, k, "").value, k, v) == RotateKey(c, k, v) <==> last)
  {
    var b := if last then "" else "\n";
    var c := k + "=" + a + b;
    ValueSite(k, a, b);
    hide Header, Spaces, Run, Site, Subst, HasSite, Site3;
    SiteBounds(c, k, |k| + 1, |k| + 1, |k| + 1 + |a|);
    RewriteAt(c, k, |k| + 1, |k| + 1, |k| + 1 + |a|, "");
    ValueEndAt(c, k, |k| + 1, |k| + 1, |k| + 1 + |a|);
    PutPut(c, k, "", v);
  }

  lemma ValueSite(k: string, a: string, b: string)
    requires Key(k) && a != "" && SingleLine(a) && !Space(a[0]) && (b == "" || b == "\n")
    ensures Site3(k + "=" + a + b, k, |k| + 1, |k| + 1, |k| + 1 + |a|) && NoLoneCR(k + "=" + a + b)
  {
    hide Header;
    HeaderOfKey(k);
    var c := k + "=" + a + b;
    var h := |k| + 1;
    assert c[..h] == k + "=";
    assert forall i :: 0 <= i < |k| ==> c[i] == k[i];
    assert forall i :: h <= i < h + |a| ==> c[i] == a[i - h];
    assert b != "" ==> c[h + |a|] == '\n';
  }

  /** `\s*` after `=` crosses the line end: rotating a key that has no value replaces the
      whole line below it, whatever stands there. */
  lemma EmptyValueEatsNextLine(k: string, line: string, rest: string, v: string)
    requires Key(k) && line != "" && SingleLine(line) && !Space(line[0])
    requires NoLoneCR(k + "=\n" + line + rest) && (rest != "" ==> Break(rest[0]))
    ensures Subst(k + "=\n" + line + rest, true, k, v) == k + "=\n" + v + Subst(rest, false, k, v)
    ensures !OwnLine(k + "=\n" + line + rest, true, k)
  {
    hide *;
    var s := k + "=\n" + line + rest;
    NextLineSite(k, line, rest);
    RewriteAt(s, k, |k| + 1, |k| + 2, |k| + 2 + |line|, v);
    NotOwnLine(s, k, |k| + 1, |k| + 2, |k| + 2 + |line|);
  }

  /** A lone CR ends a value for the reader and not for the rotator: the rotator passes
      over the line that the reader goes on reading. */
  lemma LoneCRBreaksPutGet(k: string, a: string, b: string, v: string)
    requires Key(k) && a != "" && SingleLine(a) && !Space(a[0]) && b != "" && b[0] != '\n'
    ensures ParseFrom(Subst(k + "=" + a + "\r" + b, true, k, v), true, k) == Some(Clean(a))
  {
    hide Header, Subst, ParseFrom, Clean;
    HeaderOfKey(k);
    var u := k + "=" + a + "\r";
    var s := u + b;
    var h := |k| + 1;
    var e := h + |a|;
    CRSite(s, k, h, e, a);
    LoneCRPassed(s, k, v);
    assert s[1..] == u[1..] + b;
    assert Quiet(u[1..], 0, false, k);
    SubstSkips(u[1..], 0, false, k, b, v);
    var t := u + Subst(b, false, k, v);
    assert t == [s[0]] + (u[1..] + Subst(b, false, k, v));
    assert t[..h] == k + "=" && t[e] == '\r';
    assert forall i :: h <= i < e ==> t[i] == a[i - h];
    ReadAt(t, k, h, h, e);
    assert t[h..e] == a;
  }

  lemma CRSite(s: string, k: string, h: nat, e: nat, a: string)
    requires Key(k) && h + |a| == e && a != "" && SingleLine(a) && !Space(a[0])
    requires h == |k| + 1 && e + 1 < |s| && s[..h] == k + "=" && s[h..e] == a
    requires s[e] == '\r' && s[e + 1] != '\n'
    ensures Site(s, k).None?
    ensures s[0] != '\n'
  {
    hide Header;
    HeaderOfKey(k);
    assert forall i :: h <= i < e ==> s[i] == s[h..e][i - h];
    Site3Header(s, k, h, h, e);
    assert s[0] == (k + "=")[0];
  }

  lemma LoneCRPassed(s: string, k: string, v: string)
    requires Key(k) && s != "" && Site(s, k).None? && s[0] != '\n'
    ensures Subst(s, true, k, v) == [s[0]] + Subst(s[1..], false, k, v)
  {}

  /** The white space of `\s`. */
  lemma SpacesExactly(c: char)
    ensures Space(c) <==>
      || c in " \t\n\r\U{0B}\U{0C}\U{1C}\U{1D}\U{1E}\U{1F}\U{85}\U{A0}\U{1680}"
      || c in "\U{2000}\U{2001}\U{2002}\U{2003}\U{2004}\U{2005}\U{2006}\U{2007}\U{2008}\U{2009}\U{200A}"
      || c in "\U{2028}\U{2029}\U{202F}\U{205F}\U{3000}"
  {}
}
