/** The query part of a URL as `urllib.parse.urlparse` finds it, and the name/value pairs
    `urllib.parse.parse_qs` makes of it (default arguments: `&` separates fields, fields
    without `=` or with an empty value are dropped, names and values are `unquote_plus`ed). */
module Query {
  import opened Wrappers
  import opened Strings
  import opened Percent

  /** The characters `urlsplit` strips from the start of a URL (C0 controls and space). */
  predicate IsControlOrSpace(c: char) {
    c as int <= 0x20
  }

  /** The characters `urlsplit` removes wherever they are. */
  predicate IsTabOrNewline(c: char) {
    c == '\t' || c == '\r' || c == '\n'
  }

  function StripLeadingControls(s: string): string
    decreases |s|
  {
    if |s| > 0 && IsControlOrSpace(s[0]) then StripLeadingControls(s[1..]) else s
  }

  function RemoveTabsAndNewlines(s: string): string
    decreases |s|
  {
    if |s| == 0 then ""
    else if IsTabOrNewline(s[0]) then RemoveTabsAndNewlines(s[1..])
    else [s[0]] + RemoveTabsAndNewlines(s[1..])
  }

  /** The URL as `urlsplit` sees it after its clean-up. */
  function CleanUrl(url: string): string {
    RemoveTabsAndNewlines(StripLeadingControls(url))
  }

  /** Stripping leaves a suffix, and leaves a string with no control or space as it is. */
  lemma {:induction false} StripLeadingControlsSuffix(s: string)
    ensures var r := StripLeadingControls(s); |r| <= |s| && r == s[|s| - |r|..]
    ensures (forall i :: 0 <= i < |s| ==> !IsControlOrSpace(s[i])) ==> StripLeadingControls(s) == s
    decreases |s|
  {
    if |s| > 0 && IsControlOrSpace(s[0]) {
      StripLeadingControlsSuffix(s[1..]);
      var r := StripLeadingControls(s[1..]);
      assert s[1..][|s| - 1 - |r|..] == s[|s| - |r|..];
    }
  }

  /** What stripping removes is all controls and spaces, and what it leaves starts with neither. */
  lemma {:induction false} StripLeadingControlsRun(s: string)
    ensures |StripLeadingControls(s)| <= |s|
    ensures forall i :: 0 <= i < |s| - |StripLeadingControls(s)| ==> IsControlOrSpace(s[i])
    ensures StripLeadingControls(s) == [] || !IsControlOrSpace(StripLeadingControls(s)[0])
    decreases |s|
  {
    if |s| > 0 && IsControlOrSpace(s[0]) {
      StripLeadingControlsRun(s[1..]);
      var r := StripLeadingControls(s[1..]);
      forall i | 0 <= i < |s| - |r| ensures IsControlOrSpace(s[i]) {
        if i > 0 { assert s[i] == s[1..][i - 1]; }
      }
    }
  }

  /** Removing tabs and newlines from a concatenation removes them from each part. */
  lemma {:induction false} RemoveTabsAndNewlinesAppend(a: string, b: string)
    ensures RemoveTabsAndNewlines(a + b) == RemoveTabsAndNewlines(a) + RemoveTabsAndNewlines(b)
    decreases |a|
  {
    if |a| > 0 {
      assert (a + b)[1..] == a[1..] + b;
      RemoveTabsAndNewlinesAppend(a[1..], b);
    } else {
      assert a + b == b;
    }
  }

  /** One character is dropped when it is a tab or newline and kept otherwise. */
  lemma RemoveTabsAndNewlinesChar(c: char)
    ensures RemoveTabsAndNewlines([c]) == if IsTabOrNewline(c) then "" else [c]
  {
    assert [c][1..] == "";
  }

  /** Removing keeps only characters of the input, and none of them is a tab or newline. */
  lemma {:induction false} RemoveTabsAndNewlinesKeeps(s: string)
    ensures forall c :: c in RemoveTabsAndNewlines(s) ==> c in s && !IsTabOrNewline(c)
    decreases |s|
  {
    if |s| > 0 {
      RemoveTabsAndNewlinesKeeps(s[1..]);
      forall c | c in RemoveTabsAndNewlines(s) ensures c in s && !IsTabOrNewline(c) {
        if c != s[0] || IsTabOrNewline(s[0]) {
          assert c in RemoveTabsAndNewlines(s[1..]);
          assert c in s[1..];
        }
      }
    }
  }

  /** A string with no tab or newline is left as it is. */
  lemma {:induction false} RemoveTabsAndNewlinesPlain(s: string)
    ensures (forall i :: 0 <= i < |s| ==> !IsTabOrNewline(s[i])) ==> RemoveTabsAndNewlines(s) == s
    decreases |s|
  {
    if |s| > 0 && forall i :: 0 <= i < |s| ==> !IsTabOrNewline(s[i]) {
      var tail := s[1..];
      forall i | 0 <= i < |tail| ensures !IsTabOrNewline(tail[i]) {
        assert tail[i] == s[i + 1];
      }
      RemoveTabsAndNewlinesPlain(tail);
      assert s == [s[0]] + tail;
    }
  }

  /** The clean-up drops the leading run of controls and spaces, then every tab and newline of
      the rest, keeping the other characters in order. */
  lemma CleanUrlKeepsOrder(url: string)
    ensures exists k :: 0 <= k <= |url| && (forall i :: 0 <= i < k ==> IsControlOrSpace(url[i]))
                        && (k < |url| ==> !IsControlOrSpace(url[k]))
                        && CleanUrl(url) == RemoveTabsAndNewlines(url[k..])
  {
    var stripped := StripLeadingControls(url);
    StripLeadingControlsSuffix(url);
    StripLeadingControlsRun(url);
    var k := |url| - |stripped|;
    assert url[k..] == stripped;
    assert k < |url| ==> url[k] == stripped[0];
  }

  /** Every character of the cleaned URL is in the URL, and none is a tab or newline. */
  lemma CleanUrlDrops(url: string)
    ensures forall c :: c in CleanUrl(url) ==> c in url && !IsTabOrNewline(c)
  {
    var stripped := StripLeadingControls(url);
    StripLeadingControlsSuffix(url);
    RemoveTabsAndNewlinesKeeps(stripped);
    var k := |url| - |stripped|;
    assert url[k..] == stripped;
    forall c | c in CleanUrl(url) ensures c in url && !IsTabOrNewline(c) {
      var i :| 0 <= i < |stripped| && stripped[i] == c;
      assert url[k + i] == c;
    }
  }

  /** A URL without control characters and spaces is left as it is by the clean-up. */
  lemma CleanUrlPlain(url: string)
    requires forall i :: 0 <= i < |url| ==> !IsControlOrSpace(url[i])
    ensures CleanUrl(url) == url
  {
    StripLeadingControlsSuffix(url);
    RemoveTabsAndNewlinesPlain(url);
    assert forall i :: 0 <= i < |url| ==> !IsTabOrNewline(url[i]);
  }

  /** The text before the first `#`: the fragment is split off first. */
  function BeforeFragment(u: string): (r: string)
    ensures '#' !in r
    ensures '#' !in u ==> r == u
  {
    match SplitFirst(u, '#') case Some(parts) => parts.0 case None => u
  }

  /** `urlparse(url).query`: after the clean-up, the text between the first `?` and the first
      `#` after it (scheme and network location never hold either character). */
  function QueryOf(url: string): (q: string)
    ensures '#' !in q
    ensures var h := BeforeFragment(CleanUrl(url)); '?' !in h ==> q == ""
    ensures var h := BeforeFragment(CleanUrl(url));
      '?' in h ==> exists i :: 0 <= i < |h| && h[i] == '?' && '?' !in h[..i] && q == h[i + 1..]
  {
    var h := BeforeFragment(CleanUrl(url));
    match SplitFirst(h, '?')
    case Some(parts) =>
      assert h[|parts.0|] == '?' && h[..|parts.0|] == parts.0 && h[|parts.0| + 1..] == parts.1;
      parts.1
    case None => ""
  }

  /** One `&`-separated field as `parse_qsl` reads it: dropped when it has no `=` or an empty
      value, else its decoded name and value. */
  function Field(piece: string): (r: Option<(string, string)>)
    ensures r.Some? ==> |r.value.1| > 0
  {
    match SplitFirst(piece, '=')
    case None => None
    case Some(nv) => if |nv.1| == 0 then None else Some((UnquotePlus(nv.0), UnquotePlus(nv.1)))
  }

  /** A piece gives a field exactly when it has a `=` with text after the first one; the field
      is then the decoded text before that `=` and the decoded text after it. */
  lemma FieldCases(piece: string)
    ensures '=' !in piece ==> Field(piece).None?
    ensures '=' in piece ==>
      exists i :: 0 <= i < |piece| && piece[i] == '=' && '=' !in piece[..i] &&
        Field(piece) == if i + 1 == |piece| then None else Some((UnquotePlus(piece[..i]), UnquotePlus(piece[i + 1..])))
  {
    match SplitFirst(piece, '=')
    case None =>
    case Some(nv) =>
      var i := |nv.0|;
      assert piece[i] == '=' && piece[..i] == nv.0 && piece[i + 1..] == nv.1;
  }

  function Fields(pieces: seq<string>): (r: seq<(string, string)>)
    ensures |r| <= |pieces|
    ensures forall k :: 0 <= k < |r| ==> |r[k].1| > 0
  {
    if |pieces| == 0 then []
    else
      match Field(pieces[0])
      case None => Fields(pieces[1..])
      case Some(f) => [f] + Fields(pieces[1..])
  }

  /** `parse_qsl(q)`: the decoded fields of `q` in order; no value is empty. */
  function ParseQsl(q: string): (r: seq<(string, string)>)
    ensures forall k :: 0 <= k < |r| ==> |r[k].1| > 0
  {
    if q == "" then [] else Fields(Split(q, '&'))
  }

  /** An empty query is no special case: it is the one empty piece, which yields no field. */
  lemma ParseQslPieces(q: string)
    ensures ParseQsl(q) == Fields(Split(q, '&'))
  {
    if q == "" {
      assert Split(q, '&') == [""];
      assert Field("") == None;
      assert [""][1..] == [];
    }
  }

  /** The fields of two lists of pieces, one after the other. */
  lemma {:induction false} FieldsAppend(a: seq<string>, b: seq<string>)
    ensures Fields(a + b) == Fields(a) + Fields(b)
    decreases |a|
  {
    if |a| == 0 {
      assert a + b == b;
    } else {
      assert (a + b)[0] == a[0];
      assert (a + b)[1..] == a[1..] + b;
      FieldsAppend(a[1..], b);
    }
  }

  /** The fields of `p&q` are the fields of `p` followed by the fields of `q`: `parse_qsl` keeps
      the fields in query order. */
  lemma ParseQslAppend(p: string, q: string)
    ensures ParseQsl(p + "&" + q) == ParseQsl(p) + ParseQsl(q)
  {
    ParseQslPieces(p);
    ParseQslPieces(q);
    ParseQslPieces(p + "&" + q);
    SplitAppend(p, '&', q);
    FieldsAppend(Split(p, '&'), Split(q, '&'));
  }

  /** A query without `&` is one piece: one decoded field, or none when `Field` drops it. */
  lemma ParseQslPiece(piece: string)
    requires '&' !in piece
    ensures ParseQsl(piece) == match Field(piece) case None => [] case Some(f) => [f]
  {
    ParseQslPieces(piece);
    SplitJoined([piece], '&');
    assert [piece][1..] == [];
  }

  /** `parse_qs(q)[name][0]`: the value of the first field called `name`; `None` where Python
      raises `KeyError`. */
  function FirstValue(fields: seq<(string, string)>, name: string): (r: Option<string>)
    ensures r.None? <==> forall k :: 0 <= k < |fields| ==> fields[k].0 != name
    ensures r.Some? ==> exists k :: 0 <= k < |fields| && fields[k] == (name, r.value)
                                   && forall j :: 0 <= j < k ==> fields[j].0 != name
  {
    if |fields| == 0 then None
    else if fields[0].0 == name then
      assert fields[0] == (name, fields[0].1);
      Some(fields[0].1)
    else
      var r := FirstValue(fields[1..], name);
      if r.Some? then
        var k :| 0 <= k < |fields[1..]| && fields[1..][k] == (name, r.value)
                 && forall j :: 0 <= j < k ==> fields[1..][j].0 != name;
        assert fields[k + 1] == (name, r.value);
        assert forall j :: 0 <= j < k + 1 ==> fields[j].0 != name by {
          forall j | 0 <= j < k + 1 ensures fields[j].0 != name {
            if j > 0 { assert fields[j] == fields[1..][j - 1]; }
          }
        }
        r
      else
        assert forall k :: 1 <= k < |fields| ==> fields[k] == fields[1..][k - 1];
        r
  }

  /** A character that neither separates nor ends a query field and survives the clean-up. */
  predicate QuerySafe(c: char) {
    c != '&' && c != '=' && c != '#' && c != '?' && !IsControlOrSpace(c)
  }

  /** What `quote_plus` writes holds no character that separates or ends a query field. */
  lemma {:induction false} QuotePlusSafe(v: string)
    requires IsByteText(v)
    ensures forall i :: 0 <= i < |QuotePlus(v)| ==> QuerySafe(QuotePlus(v)[i])
    decreases |v|
  {
    if |v| > 0 {
      QuotePlusSafe(v[1..]);
      var e := EncodeChar(v[0]);
      assert forall i :: 0 <= i < |e| ==> e[i] == '+' || e[i] == '%' || Unreserved(e[i]) || IsHexDigit(e[i]);
      assert QuotePlus(v) == e + QuotePlus(v[1..]);
    }
  }

  /** The query of `<prefix>?<q>` is `q` when `prefix` holds no `?` and neither part holds a
      `#`, a control character or a space. */
  lemma QueryOfJoined(prefix: string, q: string)
    requires forall i :: 0 <= i < |prefix| ==> prefix[i] != '?' && prefix[i] != '#' && !IsControlOrSpace(prefix[i])
    requires forall i :: 0 <= i < |q| ==> q[i] != '#' && !IsControlOrSpace(q[i])
    ensures QueryOf(prefix + "?" + q) == q
  {
    var url := prefix + "?" + q;
    forall i | 0 <= i < |url| ensures url[i] != '#' && !IsControlOrSpace(url[i]) {
      if i > |prefix| { assert url[i] == q[i - |prefix| - 1]; }
    }
    CleanUrlPlain(url);
    assert BeforeFragment(url) == url;
    assert '?' !in prefix;
    SplitFirstAt(prefix, '?', q);
  }

  /** A query made of the single field `name=value` parses to that one decoded pair. */
  lemma ParseSingleField(name: string, value: string)
    requires '=' !in name && '&' !in name && '&' !in value && |value| > 0
    ensures ParseQsl(name + "=" + value) == [(UnquotePlus(name), UnquotePlus(value))]
  {
    var q := name + "=" + value;
    assert '&' !in q by {
      forall i | 0 <= i < |q| ensures q[i] != '&' {
        if i < |name| { assert q[i] == name[i]; }
        else if i > |name| { assert q[i] == value[i - |name| - 1]; }
      }
    }
    SplitJoined([q], '&');
    SplitFirstAt(name, '=', value);
  }

  /** A redirector link written as `<prefix>?files=<quote_plus(v)>` yields `v` as the first
      `files` value, whatever the prefix (free of `?`, `#`, controls and spaces). */
  lemma RedirectTargetRoundTrip(prefix: string, v: string)
    requires forall i :: 0 <= i < |prefix| ==> prefix[i] != '?' && prefix[i] != '#' && !IsControlOrSpace(prefix[i])
    requires IsByteText(v) && |v| > 0
    ensures FirstValue(ParseQsl(QueryOf(prefix + "?files=" + QuotePlus(v))), "files") == Some(v)
  {
    var enc := QuotePlus(v);
    QuotePlusSafe(v);
    FilesFieldQuery(prefix, enc);
    UnquotePlusQuotePlus(v);
  }

  /** The query of `<prefix>?files=<enc>` is the single field `files` with value `unquote_plus(enc)`. */
  lemma FilesFieldQuery(prefix: string, enc: string)
    requires forall i :: 0 <= i < |prefix| ==> prefix[i] != '?' && prefix[i] != '#' && !IsControlOrSpace(prefix[i])
    requires forall i :: 0 <= i < |enc| ==> QuerySafe(enc[i])
    requires |enc| > 0
    ensures ParseQsl(QueryOf(prefix + "?files=" + enc)) == [("files", UnquotePlus(enc))]
  {
    var q := "files=" + enc;
    FilesTextPlain(enc);
    QueryOfJoined(prefix, q);
    FilesUrlShape(prefix, enc);
    FilesField(enc);
  }

  lemma FilesUrlShape(prefix: string, enc: string)
    ensures prefix + "?files=" + enc == prefix + "?" + ("files=" + enc)
  {
  }

  lemma FilesTextPlain(enc: string)
    requires forall i :: 0 <= i < |enc| ==> QuerySafe(enc[i])
    ensures forall i :: 0 <= i < |"files=" + enc| ==> ("files=" + enc)[i] != '#' && !IsControlOrSpace(("files=" + enc)[i])
  {
    var q := "files=" + enc;
    forall i | 0 <= i < |q| ensures q[i] != '#' && !IsControlOrSpace(q[i]) {
      if i >= 6 { assert q[i] == enc[i - 6]; }
    }
  }

  lemma FilesField(enc: string)
    requires forall i :: 0 <= i < |enc| ==> QuerySafe(enc[i])
    requires |enc| > 0
    ensures ParseQsl("files=" + enc) == [("files", UnquotePlus(enc))]
  {
    assert '&' !in enc by {
      forall i | 0 <= i < |enc| ensures enc[i] != '&' { assert QuerySafe(enc[i]); }
    }
    assert "files" + "=" + enc == "files=" + enc;
    ParseSingleField("files", enc);
    assert ReplaceChar("files", '+', ' ') == "files";
  }
}
