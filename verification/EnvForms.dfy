/** Which lines of a .env text are assignments, on the text itself: an optional `export` and
    white space before the key, white space on either side of the `=`. */
module EnvForms {
  import opened Prelude
  import opened EnvFile

  /** What may stand before a key: white space, or `export` with white space behind it. */
  predicate Leads(x: string) {
    Blank(x)
    || exists i :: 0 <= i && i + 6 < |x| && Blank(x[..i]) && x[i..i + 6] == "export" && Blank(x[i + 6..])
  }

  lemma SpacesThen(a: string, b: string)
    requires Blank(a) && b != "" && !Space(b[0])
    ensures Spaces(a + b) == |a|
  {
    SpacesSkip(a, b);
  }

  lemma KeyAhead(k: string, m: string, b: string)
    requires Key(k) && Blank(m)
    ensures AfterKey(k + m + "=" + b, k) == Some(|k| + |m| + 1)
  {
    var s := k + m + "=" + b;
    assert s[|k|..] == m + ("=" + b);
    assert s[..|k|] == k;
    SpacesThen(m, "=" + b);
  }

  /** The key of an assignment is not itself taken for `export`. */
  lemma NoExport(k: string, m: string, b: string)
    requires Key(k) && Blank(m)
    ensures Exported(k + m + "=" + b, k).None?
  {
    hide Spaces, AfterKey;
    var s := k + m + "=" + b;
    var x := "export";
    if x <= s {
      assert forall i :: 0 <= i < 6 ==> s[i] == x[i] && !Space(s[i]) && s[i] != '=';
      assert forall i :: |k| <= i < |k| + |m| ==> s[i] == m[i - |k|];
      assert s[|k| + |m|] == '=';
      assert Space(s[|k|]) || s[|k|] == '=';
      assert 6 <= |k|;
      if 6 < |k| {
        SpacesAt(s, 6, 6);
      } else {
        assert s[6..] == m + ("=" + b);
        SpacesThen(m, "=" + b);
        NoKeyHere(k, s[6 + |m|..]);
      }
    }
  }

  lemma NoKeyHere(k: string, s: string)
    requires Key(k) && s != "" && s[0] == '='
    ensures AfterKey(s, k).None?
  {}

  /** The line forms that are assignments: where the value begins. */
  lemma Matches(x: string, k: string, m: string, b: string)
    requires Key(k) && Leads(x) && Blank(m)
    ensures Header(x + k + m + "=" + b, k) == Some(|x| + |k| + |m| + 1)
  {
    hide *;
    var u := k + m + "=" + b;
    Regrouped(x, k, m, b);
    LeadsMeans(x);
    FirstOfKey(k, m, b);
    if Blank(x) {
      PlainHeader(x, k, m, b);
    } else {
      var i :| 0 <= i && i + 6 < |x| && Blank(x[..i]) && x[i..i + 6] == "export" && Blank(x[i + 6..]);
      ExportHeader(x[..i], x[i + 6..], k, m, b);
      assert x == x[..i] + "export" + x[i + 6..];
    }
  }

  lemma LeadsMeans(x: string)
    ensures Leads(x) && !Blank(x) ==>
      exists i :: 0 <= i && i + 6 < |x| && Blank(x[..i]) && x[i..i + 6] == "export" && Blank(x[i + 6..])
  {}

  lemma Regrouped(x: string, k: string, m: string, b: string)
    ensures x + k + m + "=" + b == x + (k + m + "=" + b)
  {}

  lemma FirstOfKey(k: string, m: string, b: string)
    requires Key(k)
    ensures var u := k + m + "=" + b; u != "" && u[0] == k[0] && !Space(u[0])
  {}

  lemma PlainHeader(x: string, k: string, m: string, b: string)
    requires Key(k) && Blank(x) && Blank(m)
    ensures Header(x + (k + m + "=" + b), k) == Some(|x| + |k| + |m| + 1)
  {
    hide Exported, AfterKey, Spaces, Blank, Key;
    var u := k + m + "=" + b;
    FirstOfKey(k, m, b);
    SpacesThen(x, u);
    assert (x + u)[|x|..] == u;
    NoExport(k, m, b);
    KeyAhead(k, m, b);
  }

  lemma ExportHeader(w: string, n: string, k: string, m: string, b: string)
    requires Key(k) && Blank(w) && Blank(n) && n != "" && Blank(m)
    ensures Header(w + "export" + n + (k + m + "=" + b), k) == Some(|w| + 6 + |n| + |k| + |m| + 1)
  {
    hide Exported, AfterKey, Spaces, Blank, Key;
    var u := k + m + "=" + b;
    var e := "export" + n + u;
    FirstOfKey(k, m, b);
    assert w + "export" + n + u == w + e && e[0] == 'e';
    SpacesThen(w, e);
    assert (w + e)[|w|..] == e;
    ExportAhead(n, u, k);
    KeyAhead(k, m, b);
  }

  lemma ExportAhead(n: string, u: string, k: string)
    requires Blank(n) && n != "" && u != "" && !Space(u[0])
    ensures Exported("export" + n + u, k)
      == match AfterKey(u, k) case Some(w) => Some(6 + |n| + w) case None => None
  {
    hide AfterKey, Spaces;
    var e := "export" + n + u;
    assert e[6..] == n + u;
    SpacesThen(n, u);
    assert e[6 + |n|..] == u;
  }

  /** ... and no others: whatever else stands before the key, there is no assignment to it. */
  lemma MatchesOnly(x: string, k: string, m: string, b: string)
    requires Key(k) && '=' !in x && Blank(m) && Header(x + k + m + "=" + b, k).Some?
    ensures Leads(x)
  {
    FirstEqualsSign(x, k, m, b);
    hide *;
    LeadOf(x + k + m + "=" + b, x, k, |x| + |k| + |m|);
  }

  lemma LeadOf(s: string, x: string, k: string, n: nat)
    requires Key(k) && |x| + |k| <= n < |s| && s[n] == '=' && !Space(s[n]) && (forall i :: 0 <= i < n ==> s[i] != '=')
    requires s[..|x|] == x && s[|x|..|x| + |k|] == k && (forall i :: |x| + |k| <= i < n ==> Space(s[i]))
    requires Header(s, k).Some?
    ensures Leads(x)
  {
    hide *;
    var q := Spaces(s);
    HeaderCases(s, k);
    SpacesMean(s);
    if Exported(s[q..], k).Some? {
      var p := ExportedWord(s, q, k);
      KeyStandsAt(s, x, k, n, q, p, q + Exported(s[q..], k).value);
      LedByExport(s, x, q);
    } else {
      AfterKeyWord(s, q, k);
      KeyStandsAt(s, x, k, n, q, q, q + AfterKey(s[q..], k).value);
      LedByWhite(s, x);
    }
  }

  lemma FirstEqualsSign(x: string, k: string, m: string, b: string)
    requires Key(k) && '=' !in x && Blank(m)
    ensures var s := x + k + m + "=" + b; var n := |x| + |k| + |m|;
      && s[n] == '=' && !Space(s[n]) && (forall i :: 0 <= i < n ==> s[i] != '=')
      && s[..|x|] == x && s[|x|..|x| + |k|] == k && (forall i :: |x| + |k| <= i < n ==> Space(s[i]))
  {
    var s := x + k + m + "=" + b;
    var n := |x| + |k| + |m|;
    assert forall i :: 0 <= i < |x| ==> s[i] == x[i];
    assert forall i :: |x| <= i < |x| + |k| ==> s[i] == k[i - |x|];
    assert forall i :: |x| + |k| <= i < n ==> s[i] == m[i - |x| - |k|];
  }

  lemma HeaderCases(s: string, k: string)
    requires Header(s, k).Some?
    ensures var u := s[Spaces(s)..]; Exported(u, k).Some? || AfterKey(u, k).Some?
  {}

  lemma SpacesMean(s: string)
    ensures (forall i :: 0 <= i < Spaces(s) ==> Space(s[i])) && Spaces(s) <= |s|
  {}

  lemma KeyStandsAt(s: string, x: string, k: string, n: nat, q: nat, p: nat, h: nat)
    requires Key(k) && |x| + |k| <= n < |s| && s[n] == '=' && !Space(s[n]) && (forall i :: 0 <= i < n ==> s[i] != '=')
    requires s[|x|..|x| + |k|] == k && (forall i :: |x| + |k| <= i < n ==> Space(s[i]))
    requires q <= p && p + |k| <= h - 1 < |s| && s[h - 1] == '=' && s[p..p + |k|] == k
    requires (forall i :: 0 <= i < q ==> Space(s[i])) && (forall i :: q <= i < h - 1 ==> s[i] != '=')
    requires forall i :: p + |k| <= i < h - 1 ==> Space(s[i])
    ensures p == |x|
  {
    var a, b := p + |k| - 1, |x| + |k| - 1;
    assert s[a] == s[p..p + |k|][|k| - 1] && s[b] == s[|x|..|x| + |k|][|k| - 1];
    assert h - 1 == n;
    assert a == b;
  }

  lemma LedByExport(s: string, x: string, q: nat)
    requires |x| <= |s| && s[..|x|] == x && q + 6 < |x| && s[q..q + 6] == "export"
    requires (forall i :: 0 <= i < q ==> Space(s[i])) && (forall i :: q + 6 <= i < |x| ==> Space(s[i]))
    ensures Leads(x)
  {
    assert forall i :: 0 <= i < |x| ==> x[i] == s[..|x|][i] == s[i];
    assert x[q..q + 6] == s[q..q + 6];
    assert Blank(x[..q]) && Blank(x[q + 6..]);
  }

  lemma LedByWhite(s: string, x: string)
    requires |x| <= |s| && s[..|x|] == x && (forall i :: 0 <= i < |x| ==> Space(s[i]))
    ensures Leads(x)
  {
    assert forall i :: 0 <= i < |x| ==> x[i] == s[..|x|][i] == s[i];
  }

  // ------------------------------------------------------------------- reading

  /** White space or quotes of one kind around a value are not part of it; of both kinds, if
      the double ones are outside. */
  lemma Unquoted(a: string)
    requires Plain(a)
    ensures Clean("\"" + a + "\"") == a && Clean("'" + a + "'") == a && Clean("\"'" + a + "'\"") == a
    ensures a != "" ==> Clean("'\"" + a + "\"'") == "\"" + a + "\""
  {
    Kept(a, SingleQuote);
    DoubleQuoted(a);
    SingleQuoted(a);
    DoubleQuoted("'" + a + "'");
    assert "\"'" + a + "'\"" == "\"" + ("'" + a + "'") + "\"";
    if a != "" {
      var d := "\"" + a + "\"";
      SingleQuoted(d);
      assert "'\"" + a + "\"'" == "'" + d + "'";
    }
  }

  lemma DoubleQuoted(a: string)
    requires a != "" ==> !DoubleQuote(a[0]) && !DoubleQuote(a[|a| - 1])
    ensures Clean("\"" + a + "\"") == Strip(a, SingleQuote)
  {
    var s := "\"" + a + "\"";
    Kept(s, Space);
    Stripped("\"", a, "\"", DoubleQuote);
  }

  lemma SingleQuoted(a: string)
    requires a != "" ==> !SingleQuote(a[0]) && !SingleQuote(a[|a| - 1])
    ensures Strip("'" + a + "'", SingleQuote) == a && Clean("'" + a + "'") == a
  {
    var s := "'" + a + "'";
    Kept(s, Space);
    Kept(s, DoubleQuote);
    Stripped("'", a, "'", SingleQuote);
  }

  lemma Kept(a: string, p: char -> bool)
    requires a != "" ==> !p(a[0]) && !p(a[|a| - 1])
    ensures Strip(a, p) == a
  {}

  lemma Stripped(q: string, a: string, r: string, p: char -> bool)
    requires |q| == |r| == 1 && p(q[0]) && p(r[0]) && (a != "" ==> !p(a[0]) && !p(a[|a| - 1]))
    ensures Strip(q + a + r, p) == a
  {
    var s := q + a + r;
    assert s[1..] == a + r;
    assert (a + r)[..|a|] == a;
    if a != "" {
      assert Lstrip(s, p) == a + r;
      assert Rstrip(a + r, p) == Rstrip(a, p) == a;
    } else {
      assert a + r == r && r[1..] == "";
      assert Lstrip(s, p) == Lstrip(r, p) == Lstrip("", p);
    }
  }

  /** Where the value of an assignment stands. */
  lemma ValueStands(x: string, k: string, m: string, n: string, v: string, rest: string)
    requires Key(k) && Leads(x) && Blank(m) && Blank(n)
    requires v != "" && SingleLine(v) && !Space(v[0]) && (rest != "" ==> Break(rest[0]))
    ensures var h := |x| + |k| + |m| + 1;
      Site3(x + k + m + "=" + n + v + rest, k, h, h + |n|, h + |n| + |v|)
  {
    hide Header, Leads, Space, Break;
    var s := x + k + m + "=" + n + v + rest;
    var h := |x| + |k| + |m| + 1;
    Matches(x, k, m, "");
    var a := x + k + m + "=";
    assert a + "" == a;
    assert s == a + (n + v + rest) && s[..h] == a;
    assert forall i :: h <= i < h + |n| ==> s[i] == n[i - h];
    assert forall i :: h + |n| <= i < h + |n| + |v| ==> s[i] == v[i - h - |n|];
    assert rest != "" ==> s[h + |n| + |v|] == rest[0];
  }

  /** The reader finds an assignment in each of its forms, up to the end of its line, and
      returns what stands there, cleaned; a value with clean ends as it is, with or without
      quotes. */
  lemma AssignmentIsRead(x: string, k: string, m: string, n: string, v: string, rest: string)
    requires Key(k) && Leads(x) && Blank(m) && Blank(n)
    requires v != "" && SingleLine(v) && !Space(v[0]) && (rest != "" ==> Break(rest[0]))
    ensures ParseValue(x + k + m + "=" + n + v + rest, k) == Some(Clean(v))
  {
    hide Header, ParseFrom, Leads, Clean;
    ValueStands(x, k, m, n, v, rest);
    var s := x + k + m + "=" + n + v + rest;
    var h := |x| + |k| + |m| + 1;
    ReadAt(s, k, h, h + |n|, h + |n| + |v|);
    assert s[h + |n|..h + |n| + |v|] == v;
  }

  /** The forms one by one, for values with clean ends. */
  lemma FormsAreRead(k: string, w: string, m: string, a: string, rest: string)
    requires Key(k) && Blank(w) && Blank(m) && m != "" && a != "" && SingleLine(a) && Plain(a)
    requires rest != "" ==> Break(rest[0])
    ensures ParseValue(k + "=" + a + rest, k) == Some(a)
    ensures ParseValue(w + k + w + "=" + w + a + rest, k) == Some(a)
    ensures ParseValue("export" + m + k + "=" + a + rest, k) == Some(a)
    ensures ParseValue(w + "export" + m + k + w + "=" + w + a + rest, k) == Some(a)
    ensures ParseValue(k + "=" + ("\"" + a + "\"") + rest, k) == Some(a)
    ensures ParseValue(k + "=" + ("'" + a + "'") + rest, k) == Some(a)
  {
    CleanFixes(a);
    Unquoted(a);
    QuotedLine(a, '"');
    QuotedLine(a, '\'');
    assert k != "" && !Space(a[0]);
    LeadsIn(w, m);
    hide *;
    BareIsRead("", k, a, rest);
    AssignmentIsRead(w, k, w, w, a, rest);
    BareIsRead("export" + m, k, a, rest);
    AssignmentIsRead(w + "export" + m, k, w, w, a, rest);
    BareIsRead("", k, "\"" + a + "\"", rest);
    BareIsRead("", k, "'" + a + "'", rest);
    assert "" + k == k;
  }

  lemma BareIsRead(x: string, k: string, v: string, rest: string)
    requires Key(k) && Leads(x) && v != "" && SingleLine(v) && !Space(v[0]) && (rest != "" ==> Break(rest[0]))
    ensures ParseValue(x + k + "=" + v + rest, k) == Some(Clean(v))
  {
    hide ParseValue, Leads, Clean;
    AssignmentIsRead(x, k, "", "", v, rest);
    assert x + k + "" + "=" + "" + v + rest == x + k + "=" + v + rest;
  }

  lemma QuotedLine(a: string, q: char)
    requires SingleLine(a) && (q == '"' || q == '\'')
    ensures var v := [q] + a + [q]; v != "" && SingleLine(v) && !Space(v[0])
  {}

  lemma LeadsIn(w: string, m: string)
    requires Blank(w) && Blank(m) && m != ""
    ensures Blank("") && Leads("") && Leads(w) && Leads("export" + m) && Leads(w + "export" + m)
  {
    ExportLeads("", m);
    ExportLeads(w, m);
    assert "" + "export" + m == "export" + m;
  }

  lemma ExportLeads(w: string, m: string)
    requires Blank(w) && Blank(m) && m != ""
    ensures Leads(w + "export" + m)
  {
    var x := w + "export" + m;
    var i := |w|;
    assert x[..i] == w && x[i..i + 6] == "export" && x[i + 6..] == m;
  }

  /** The rotator finds the same forms and puts the new value in the place of the old one. */
  lemma AssignmentIsRotated(x: string, k: string, m: string, n: string, a: string, v: string)
    requires Key(k) && Leads(x) && Blank(m) && Blank(n) && a != "" && SingleLine(a) && !Space(a[0]) && '\\' !in v
    requires NoLoneCR(x + k + m + "=" + n + a)
    ensures RotateKey(x + k + m + "=" + n + a, k, v) == Some(x + k + m + "=" + n + v)
  {
    hide Header, Leads, Subst, Site3, HasSite;
    ValueStands(x, k, m, n, a, "");
    var s := x + k + m + "=" + n + a;
    assert s + "" == s;
    var h := |x| + |k| + |m| + 1;
    RewriteAt(s, k, h, h + |n|, h + |n| + |a|, v);
    assert s[h + |n| + |a|..] == "" && s[..h + |n|] == x + k + m + "=" + n;
    SubstHead("", k, v);
    assert x + k + m + "=" + n + v + "" == x + k + m + "=" + n + v;
  }

  /** Exactly these forms: in a text of one line that holds the key and an `=` behind it, the
      key is found if and only if nothing but white space, or one `export`, stands before. */
  lemma AssignmentExactly(x: string, k: string, m: string, b: string, v: string)
    requires Key(k) && '=' !in x && Blank(m) && SingleLine(x + k + m + "=" + b) && '\\' !in v
    ensures var s := x + k + m + "=" + b;
      && (ParseValue(s, k).Some? <==> Leads(x))
      && (RotateKey(s, k, v).Some? <==> Leads(x))
  {
    hide Header, ParseFrom, Leads, HasSite;
    var s := x + k + m + "=" + b;
    if Header(s, k).Some? {
      MatchesOnly(x, k, m, b);
      ReadAtHeader(s, k);
    } else {
      if Leads(x) { Matches(x, k, m, b); }
      NotFound(s, |x| + |k| + |m|, k);
    }
    FoundFrom(s, true, k);
  }

  lemma NotFound(s: string, n: nat, k: string)
    requires Key(k) && SingleLine(s) && n < |s| && s[n] == '=' && Header(s, k).None?
    ensures ParseFrom(s, true, k).None?
  {
    hide Header;
    var h := n + 1;
    HeaderLocal(s[..h], s[h..], k);
    assert s == s[..h] + s[h..];
    forall y: nat | y < h && StartsLine(s, y, true) ensures Header(s[y..h], k).None? {
      assert y == 0;
      assert s[0..h] == s[..h];
    }
    ParseSkips(s, h, true, k, "");
    assert s + "" == s;
  }

  /** So a commented line, or a longer word that ends with the key, is no assignment to it. */
  lemma OtherWords(x: string, k: string, b: string, v: string)
    requires Key(k) && x != "" && !Space(x[|x| - 1]) && '=' !in x && SingleLine(x) && SingleLine(b) && '\\' !in v
    ensures ParseValue(x + k + "=" + b, k) == None && RotateKey(x + k + "=" + b, k, v) == None
  {
    var s := x + k + "" + "=" + b;
    assert s == x + k + "=" + b;
    if Leads(x) { LeadEndsInSpace(x); }
    hide ParseValue, RotateKey, Leads;
    AssignmentExactly(x, k, "", b, v);
  }

  lemma LeadEndsInSpace(x: string)
    requires Leads(x) && x != ""
    ensures Space(x[|x| - 1])
  {
    if !Blank(x) {
      var i :| 0 <= i && i + 6 < |x| && Blank(x[..i]) && x[i..i + 6] == "export" && Blank(x[i + 6..]);
      assert x[i + 6..][|x| - i - 7] == x[|x| - 1];
    }
  }

  predicate NoAssignment(p: string) { forall i :: 0 <= i < |p| ==> p[i] != '=' }

  /** Lines without an `=` before an assignment do not hide it. */
  lemma {:induction false} LinesBefore(s: string, n: nat, bol: bool, k: string)
    requires Key(k) && n <= |s| && NoAssignment(s[..n]) && Header(s[n..], k).Some?
    requires if n == 0 then bol else s[n - 1] == '\n'
    ensures ParseFrom(s, bol, k) == ParseFrom(s[n..], true, k)
    decreases |s|
  {
    hide Header, ParseFrom, NoAssignment;
    if n == 0 {
      assert s[0..] == s;
    } else if bol && Header(s, k).Some? {
      SameRead(s, n, k);
    } else {
      assert NoAssignment(s[1..][..n - 1]) by { TailOfLines(s, n); }
      assert s[1..][n - 1..] == s[n..];
      LinesBefore(s[1..], n - 1, s[0] == '\n', k);
      ParsePast(s, bol, k);
    }
  }

  lemma TailOfLines(s: string, n: nat)
    requires 0 < n <= |s| && NoAssignment(s[..n])
    ensures NoAssignment(s[1..][..n - 1])
  {
    var t := s[1..][..n - 1];
    forall i | 0 <= i < |t| ensures t[i] != '=' { assert t[i] == s[..n][i + 1]; }
  }

  /** A header that begins in front ends at the same `=`. */
  lemma SameRead(s: string, n: nat, k: string)
    requires Key(k) && n <= |s| && NoAssignment(s[..n]) && Header(s[n..], k).Some? && Header(s, k).Some?
    ensures ParseFrom(s, true, k) == ParseFrom(s[n..], true, k)
  {
    hide Header, ParseFrom, FirstLine, Clean;
    var t := s[n..];
    var q := HeaderWord(t, k);
    var q' := HeaderWord(s, k);
    var h, g := Header(t, k).value, Header(s, k).value;
    assert s[n + h - 1] == t[h - 1] == '=';
    assert forall i :: 0 <= i < n ==> s[i] == s[..n][i];
    assert t[g - 1 - n] == s[g - 1];
    assert g == n + h;
    ReadAtHeader(s, k);
    ReadAtHeader(t, k);
    assert t[h..] == s[g..];
  }

  lemma ParsePast(s: string, bol: bool, k: string)
    requires Key(k) && s != "" && (bol ==> Header(s, k).None?)
    ensures ParseFrom(s, bol, k) == ParseFrom(s[1..], s[0] == '\n', k)
  {
    hide Header;
  }

  /** Comments and empty lines before an assignment are passed over. */
  lemma CommentsArePassed(s: string, lines: nat, x: string, k: string, m: string, n: string, v: string, rest: string)
    requires 0 < lines <= |s| && NoAssignment(s[..lines]) && s[lines - 1] == '\n'
    requires s[lines..] == x + k + m + "=" + n + v + rest
    requires Key(k) && Leads(x) && Blank(m) && Blank(n)
    requires v != "" && SingleLine(v) && !Space(v[0]) && (rest != "" ==> Break(rest[0]))
    ensures ParseValue(s, k) == Some(Clean(v))
  {
    assert k != "";
    hide *;
    StartsAssignment(s[lines..], x, k, m, n, v, rest);
    LinesBefore(s, lines, true, k);
    ParseMeans(s, k);
    ParseMeans(s[lines..], k);
  }

  lemma StartsAssignment(t: string, x: string, k: string, m: string, n: string, v: string, rest: string)
    requires t == x + k + m + "=" + n + v + rest && Key(k) && Leads(x) && Blank(m) && Blank(n)
    requires v != "" && SingleLine(v) && !Space(v[0]) && (rest != "" ==> Break(rest[0]))
    ensures Header(t, k).Some? && k != "" && ParseValue(t, k) == Some(Clean(v))
  {
    assert k != "";
    hide *;
    AssignmentIsRead(x, k, m, n, v, rest);
    Matches(x, k, m, n + v + rest);
    Regroup3(x + k + m + "=", n, v, rest);
  }

  lemma Regroup3(a: string, b: string, c: string, d: string)
    ensures a + (b + c + d) == a + b + c + d
  {}

  lemma ParseMeans(s: string, k: string)
    requires k != ""
    ensures ParseValue(s, k) == ParseFrom(s, true, k)
  {}

  // ------------------------------------------------------------------- backtracking

  /** Where the line below an empty assignment ends in a lone CR, the rotator gives the line end
      back and puts the value behind the `=`. */
  lemma LineEndGivenBack(k: string, a: string, b: string, v: string)
    requires Key(k) && a != "" && SingleLine(a) && !Space(a[0]) && b != "" && b[0] != '\n'
    requires NoAssignment(a) && NoAssignment(b) && '\\' !in v
    ensures RotateKey(k + "=\n" + a + "\r" + b, k, v) == Some(k + "=" + v + "\n" + a + "\r" + b)
  {
    var s := k + "=\n" + a + "\r" + b;
    assert k != "";
    GivenBackSite(s, k, a, b);
    RestUnchanged(k, a, b, v);
    GivenBackParts(k, a, b, v);
    hide *;
    RewriteBare(s, k, |k| + 1, v);
  }

  lemma GivenBackParts(k: string, a: string, b: string, v: string)
    ensures var s := k + "=\n" + a + "\r" + b; var rest := "\n" + a + "\r" + b;
      && |k| + 1 <= |s| && s[..|k| + 1] == k + "=" && s[|k| + 1..] == rest && s[|k|] == '='
      && k + "=" + v + rest == k + "=" + v + "\n" + a + "\r" + b
  {}

  lemma RestUnchanged(k: string, a: string, b: string, v: string)
    requires Key(k) && NoAssignment(a) && NoAssignment(b)
    ensures var rest := "\n" + a + "\r" + b; Subst(rest, false, k, v) == rest
  {
    var rest := "\n" + a + "\r" + b;
    assert NoAssignment(rest);
    NoSiteWithout(rest, false, k);
    NoSiteNoChange(rest, false, k, v);
  }

  lemma GivenBackSite(s: string, k: string, a: string, b: string)
    requires Key(k) && a != "" && SingleLine(a) && !Space(a[0]) && b != "" && b[0] != '\n'
    requires s == k + "=\n" + a + "\r" + b
    ensures Site(s, k) == Some(|k| + 1) && Run(s[|k| + 1..]) == 0
  {
    hide Header, Spaces, Run;
    var h := |k| + 1;
    HeaderOfKey(k);
    HeaderLocal(k + "=", "\n" + a + "\r" + b, k);
    assert s == k + "=" + ("\n" + a + "\r" + b);
    assert s[h] == '\n' && forall i :: h < i <= h + |a| ==> s[i] == a[i - h - 1];
    var e := h + 1 + |a|;
    assert s[e] == '\r' && s[e + 1] == b[0];
    SpacesAt(s, h, h + 1);
    RunAt(s, h + 1, e);
    RunAt(s, h, h);
    assert s[e..][0] == '\r' && s[e..][1] == b[0];
    assert s[h..][0] == '\n';
    assert !EndsLine(s[e..]) && EndsLine(s[h..]);
    assert Backtrack(s, h, h) == Some(h);
    HeaderBounds(s, k);
  }

  lemma RewriteBare(s: string, k: string, h: nat, v: string)
    requires k != "" && '\\' !in v
    requires Site(s, k) == Some(h) && 1 < h <= |s| && Run(s[h..]) == 0 && s != "" && s[h - 1] != '\n'
    ensures RotateKey(s, k, v) == Some(s[..h] + v + Subst(s[h..], false, k, v))
  {
    hide Site;
  }

  lemma {:induction false} NoSiteWithout(s: string, bol: bool, k: string)
    requires Key(k) && NoAssignment(s)
    ensures !HasSite(s, bol, k)
    decreases |s|
  {
    hide Header;
    if s != "" {
      NoSiteWithout(s[1..], s[0] == '\n', k);
      if Header(s, k).Some? { HeaderAtEquals(s, k); }
    }
  }
}
