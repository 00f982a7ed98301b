/** The digest page of webapp/js/NATOWatchlist.js: the latest NATO row of
    the watchlist table is shown as paragraphs of three sentences with its
    list of sources; without such a row a no-data notice is shown, and an
    error notice when the table cannot be read. */
module NatoWatchlist {
  import opened Common
  import opened Strings
  import opened Store
  import opened Json

  // ---------------------------------------------------------------------------
  // Sentence splitting: `watchlist.split(/(?<=[.!?])\s+/)`

  predicate IsPunct(c: char) {
    c == '.' || c == '!' || c == '?'
  }

  /** Length of the whitespace run at the front of s. */
  function SpaceRun(s: string): (n: nat)
    ensures n <= |s| && (forall i :: 0 <= i < n ==> IsJsSpace(s[i])) && (n < |s| ==> !IsJsSpace(s[n]))
  {
    if s != [] && IsJsSpace(s[0]) then 1 + SpaceRun(s[1..]) else 0
  }

  /** No split point lies inside the text: no whitespace directly after . ! or ?. */
  predicate NoSplitPoint(t: string) {
    forall i :: 0 < i < |t| ==> !(IsPunct(t[i - 1]) && IsJsSpace(t[i]))
  }

  predicate AllSpace(t: string) {
    forall i :: 0 <= i < |t| ==> IsJsSpace(t[i])
  }

  /** The text does not begin with whitespace. */
  predicate StartsWord(t: string) {
    t == [] || !IsJsSpace(t[0])
  }

  /** Splits s, whose preceding character was punctuation when afterPunct
      holds. pieces[0] is the rest of the sentence under way; seps are the
      whitespace runs the split consumed, one between neighbouring pieces. */
  function SplitFrom(s: string, afterPunct: bool): (r: (seq<string>, seq<string>))
    ensures |r.0| == |r.1| + 1
    ensures |r.0[0]| <= |s| && r.0[0] == s[..|r.0[0]|]
    decreases |s|
  {
    if s == [] then ([""], [])
    else if afterPunct && IsJsSpace(s[0]) then
      var n := SpaceRun(s);
      var rest := SplitFrom(s[n..], false);
      ([""] + rest.0, [s[..n]] + rest.1)
    else
      var rest := SplitFrom(s[1..], IsPunct(s[0]));
      assert [s[0]] + rest.0[0] == s[..1 + |rest.0[0]|];
      ([[s[0]] + rest.0[0]] + rest.0[1..], rest.1)
  }

  /** The sentences of the text. */
  function Sentences(s: string): (r: seq<string>)
    ensures |r| >= 1
  {
    SplitFrom(s, false).0
  }

  /** pieces[0] + seps[0] + pieces[1] + ... + pieces[n] */
  function Interleave(pieces: seq<string>, seps: seq<string>): string
    requires |pieces| == |seps| + 1
    decreases |seps|
  {
    if seps == [] then pieces[0] else pieces[0] + seps[0] + Interleave(pieces[1..], seps[1..])
  }

  /** SplitFrom, one step unfolded. */
  lemma SplitFromUnfold(s: string, afterPunct: bool)
    ensures s != [] && afterPunct && IsJsSpace(s[0]) ==>
      var n := SpaceRun(s);
      n >= 1 && SplitFrom(s, afterPunct) == ([""] + SplitFrom(s[n..], false).0, [s[..n]] + SplitFrom(s[n..], false).1)
    ensures s != [] && !(afterPunct && IsJsSpace(s[0])) ==>
      var rest := SplitFrom(s[1..], IsPunct(s[0]));
      SplitFrom(s, afterPunct) == ([[s[0]] + rest.0[0]] + rest.0[1..], rest.1)
  {
  }

  lemma RestoresAfterRun(s: string, n: nat, rest: (seq<string>, seq<string>))
    requires 1 <= n <= |s| && |rest.0| == |rest.1| + 1 && Interleave(rest.0, rest.1) == s[n..]
    ensures Interleave([""] + rest.0, [s[..n]] + rest.1) == s
  {
    var pieces := [""] + rest.0;
    var seps := [s[..n]] + rest.1;
    assert pieces[1..] == rest.0 && seps[1..] == rest.1;
    assert s == "" + s[..n] + s[n..];
  }

  lemma RestoresAfterChar(s: string, rest: (seq<string>, seq<string>))
    requires s != [] && |rest.0| == |rest.1| + 1 && Interleave(rest.0, rest.1) == s[1..]
    ensures Interleave([[s[0]] + rest.0[0]] + rest.0[1..], rest.1) == s
  {
    var pieces := [[s[0]] + rest.0[0]] + rest.0[1..];
    assert pieces[1..] == rest.0[1..];
    assert s == [s[0]] + s[1..];
    if rest.1 != [] {
      assert Interleave(rest.0, rest.1) == rest.0[0] + rest.1[0] + Interleave(rest.0[1..], rest.1[1..]);
    }
  }

  /** Putting the consumed whitespace back between the pieces restores the text. */
  lemma {:induction false} SplitFromRestores(s: string, afterPunct: bool)
    ensures Interleave(SplitFrom(s, afterPunct).0, SplitFrom(s, afterPunct).1) == s
    decreases |s|
  {
    SplitFromUnfold(s, afterPunct);
    if s == [] {
    } else if afterPunct && IsJsSpace(s[0]) {
      var n := SpaceRun(s);
      SplitFromRestores(s[n..], false);
      RestoresAfterRun(s, n, SplitFrom(s[n..], false));
    } else {
      SplitFromRestores(s[1..], IsPunct(s[0]));
      RestoresAfterChar(s, SplitFrom(s[1..], IsPunct(s[0])));
    }
  }

  predicate SepsAreRuns(seps: seq<string>) {
    forall k :: 0 <= k < |seps| ==> seps[k] != [] && AllSpace(seps[k])
  }

  /** The first n pieces end in punctuation; only the first may be empty instead, when mayBeEmpty. */
  predicate EndInPunct(pieces: seq<string>, n: nat, mayBeEmpty: bool) {
    forall k :: 0 <= k < n && k < |pieces| ==>
      if pieces[k] == [] then k == 0 && mayBeEmpty else IsPunct(pieces[k][|pieces[k]| - 1])
  }

  predicate LaterStartWords(pieces: seq<string>) {
    forall k :: 1 <= k < |pieces| ==> StartsWord(pieces[k])
  }

  predicate NoneSplit(pieces: seq<string>) {
    forall k :: 0 <= k < |pieces| ==> NoSplitPoint(pieces[k])
  }

  /** Every consumed run is non-empty whitespace. */
  lemma {:induction false} SplitFromSeps(s: string, afterPunct: bool)
    ensures SepsAreRuns(SplitFrom(s, afterPunct).1)
    decreases |s|
  {
    SplitFromUnfold(s, afterPunct);
    if s == [] {
    } else if afterPunct && IsJsSpace(s[0]) {
      var n := SpaceRun(s);
      SplitFromSeps(s[n..], false);
      var rest := SplitFrom(s[n..], false);
      var seps := [s[..n]] + rest.1;
      assert forall k :: 1 <= k < |seps| ==> seps[k] == rest.1[k - 1];
    } else {
      SplitFromSeps(s[1..], IsPunct(s[0]));
    }
  }

  lemma EndsAfterRun(s: string, n: nat, rest: (seq<string>, seq<string>))
    requires |rest.0| == |rest.1| + 1 && EndInPunct(rest.0, |rest.1|, false)
    ensures EndInPunct([""] + rest.0, |rest.1| + 1, true)
  {
    var pieces := [""] + rest.0;
    assert forall k :: 1 <= k < |pieces| ==> pieces[k] == rest.0[k - 1];
  }

  lemma EndsAfterChar(c: char, rest: (seq<string>, seq<string>), afterPunct: bool)
    requires |rest.0| == |rest.1| + 1 && EndInPunct(rest.0, |rest.1|, IsPunct(c))
    ensures EndInPunct([[c] + rest.0[0]] + rest.0[1..], |rest.1|, afterPunct)
  {
    var first := [c] + rest.0[0];
    var pieces := [first] + rest.0[1..];
    assert rest.0[0] != [] ==> first[|first| - 1] == rest.0[0][|rest.0[0]| - 1];
    assert forall k :: 1 <= k < |pieces| ==> pieces[k] == rest.0[k];
  }

  /** Every piece before a consumed run ends in punctuation; only the very
      first may be empty, when the text starts right after punctuation. */
  lemma {:induction false} SplitFromEnds(s: string, afterPunct: bool)
    ensures EndInPunct(SplitFrom(s, afterPunct).0, |SplitFrom(s, afterPunct).1|, afterPunct)
    decreases |s|
  {
    SplitFromUnfold(s, afterPunct);
    if s == [] {
    } else if afterPunct && IsJsSpace(s[0]) {
      var n := SpaceRun(s);
      SplitFromEnds(s[n..], false);
      EndsAfterRun(s, n, SplitFrom(s[n..], false));
    } else {
      SplitFromEnds(s[1..], IsPunct(s[0]));
      EndsAfterChar(s[0], SplitFrom(s[1..], IsPunct(s[0])), afterPunct);
    }
  }

  /** No piece after the first starts with whitespace: each run is consumed whole. */
  lemma {:induction false} SplitFromStarts(s: string, afterPunct: bool)
    ensures afterPunct ==> StartsWord(SplitFrom(s, afterPunct).0[0])
    ensures LaterStartWords(SplitFrom(s, afterPunct).0)
    decreases |s|
  {
    SplitFromUnfold(s, afterPunct);
    if s == [] {
    } else if afterPunct && IsJsSpace(s[0]) {
      var n := SpaceRun(s);
      SplitFromStarts(s[n..], false);
      var rest := SplitFrom(s[n..], false).0;
      assert rest[0] != [] ==> rest[0][0] == s[n];
      StartsAfterRun(rest);
    } else {
      SplitFromStarts(s[1..], IsPunct(s[0]));
      StartsAfterChar(s[0], SplitFrom(s[1..], IsPunct(s[0])).0);
    }
  }

  lemma StartsAfterRun(rest: seq<string>)
    requires |rest| >= 1 && StartsWord(rest[0]) && LaterStartWords(rest)
    ensures LaterStartWords([""] + rest)
  {
    var pieces := [""] + rest;
    assert forall k :: 1 <= k < |pieces| ==> pieces[k] == rest[k - 1];
  }

  lemma StartsAfterChar(c: char, rest: seq<string>)
    requires |rest| >= 1 && LaterStartWords(rest)
    ensures LaterStartWords([[c] + rest[0]] + rest[1..])
  {
    var pieces := [[c] + rest[0]] + rest[1..];
    assert forall k :: 1 <= k < |pieces| ==> pieces[k] == rest[k];
  }

  lemma NoSplitPointCons(c: char, t: string)
    requires NoSplitPoint(t) && (IsPunct(c) ==> StartsWord(t))
    ensures NoSplitPoint([c] + t)
  {
    var u := [c] + t;
    forall i | 0 < i < |u| ensures !(IsPunct(u[i - 1]) && IsJsSpace(u[i])) {
      if i > 1 {
        assert u[i - 1] == t[i - 2] && u[i] == t[i - 1];
      }
    }
  }

  /** No piece contains a split point. */
  lemma {:induction false} SplitFromNoSplitPoint(s: string, afterPunct: bool)
    ensures NoneSplit(SplitFrom(s, afterPunct).0)
    decreases |s|
  {
    SplitFromUnfold(s, afterPunct);
    if s == [] {
      assert NoSplitPoint("");
    } else if afterPunct && IsJsSpace(s[0]) {
      var n := SpaceRun(s);
      SplitFromNoSplitPoint(s[n..], false);
      var rest := SplitFrom(s[n..], false);
      var pieces := [""] + rest.0;
      assert NoSplitPoint("");
      assert forall k :: 1 <= k < |pieces| ==> pieces[k] == rest.0[k - 1];
    } else {
      SplitFromNoSplitPoint(s[1..], IsPunct(s[0]));
      SplitFromStarts(s[1..], IsPunct(s[0]));
      var rest := SplitFrom(s[1..], IsPunct(s[0]));
      assert NoSplitPoint(rest.0[0]);
      NoSplitPointCons(s[0], rest.0[0]);
      var pieces := [[s[0]] + rest.0[0]] + rest.0[1..];
      assert forall k :: 1 <= k < |pieces| ==> pieces[k] == rest.0[k];
    }
  }

  /** The split is at exactly the whitespace runs that follow . ! or ?: the
      text is the sentences with those runs between them, every sentence but
      the last ends in punctuation and none contains a split point, and each
      run is whole (the next sentence does not start with whitespace). */
  lemma SentencesSpec(s: string)
    ensures var r := SplitFrom(s, false);
      && r.0 == Sentences(s)
      && Interleave(r.0, r.1) == s
      && EndInPunct(r.0, |r.0| - 1, false)
      && NoneSplit(r.0)
      && LaterStartWords(r.0)
      && SepsAreRuns(r.1)
  {
    SplitFromRestores(s, false);
    SplitFromSeps(s, false);
    SplitFromEnds(s, false);
    SplitFromStarts(s, false);
    SplitFromNoSplitPoint(s, false);
  }

  // ---------------------------------------------------------------------------
  // Paragraphs of three: formatWatchlist

  /** The sentences in order, three to a paragraph, the last with the rest. */
  function Groups(xs: seq<string>): (gs: seq<seq<string>>)
    ensures |gs| == (|xs| + 2) / 3
    ensures forall k :: 0 <= k < |gs| ==> 1 <= |gs[k]| <= 3
    ensures forall k :: 0 <= k < |gs| - 1 ==> |gs[k]| == 3
    decreases |xs|
  {
    if xs == [] then []
    else if |xs| <= 3 then [xs]
    else [xs[..3]] + Groups(xs[3..])
  }

  function Flatten(gs: seq<seq<string>>): seq<string> {
    if gs == [] then [] else gs[0] + Flatten(gs[1..])
  }

  /** Every sentence lands in exactly one paragraph, in order. */
  lemma {:induction false} GroupsFlatten(xs: seq<string>)
    ensures Flatten(Groups(xs)) == xs
    decreases |xs|
  {
    if |xs| > 3 {
      GroupsFlatten(xs[3..]);
      assert ([xs[..3]] + Groups(xs[3..]))[1..] == Groups(xs[3..]);
      assert xs == xs[..3] + xs[3..];
    }
  }

  function Paragraph(g: seq<string>): string {
    "<p>" + Join(" ", g) + "</p>"
  }

  function Render(gs: seq<seq<string>>): string {
    if gs == [] then "" else Paragraph(gs[0]) + Render(gs[1..])
  }

  /** The page text of a watchlist. */
  function Formatted(watchlist: string): string {
    Render(Groups(Sentences(watchlist)))
  }

  /** The paragraphs' texts, as stripping the <p> wrappers leaves them. */
  function ParagraphTexts(gs: seq<seq<string>>): (r: seq<string>)
    ensures |r| == |gs| && forall k :: 0 <= k < |gs| ==> r[k] == Join(" ", gs[k])
  {
    seq(|gs|, k requires 0 <= k < |gs| => Join(" ", gs[k]))
  }

  /** Space-joining the paragraph texts gives the space-joined sentences. */
  lemma {:induction false} ParagraphsRejoin(xs: seq<string>)
    ensures Join(" ", ParagraphTexts(Groups(xs))) == Join(" ", xs)
    decreases |xs|
  {
    if |xs| > 3 {
      ParagraphsRejoin(xs[3..]);
      var gs := Groups(xs);
      var texts := ParagraphTexts(gs);
      assert gs[0] == xs[..3] && gs[1..] == Groups(xs[3..]);
      assert texts[1..] == ParagraphTexts(Groups(xs[3..]));
      assert Join(" ", texts) == texts[0] + " " + Join(" ", texts[1..]);
      JoinAppend(" ", xs[..3], xs[3..]);
      assert xs == xs[..3] + xs[3..];
    }
  }

  /** An empty watchlist yields one empty paragraph. */
  lemma EmptyWatchlist()
    ensures Formatted("") == "<p></p>"
  {
    assert Sentences("") == [""];
    assert Groups([""]) == [[""]];
  }

  lemma {:induction false} RenderAppend(a: seq<seq<string>>, b: seq<seq<string>>)
    ensures Render(a + b) == Render(a) + Render(b)
    decreases |a|
  {
    if a == [] {
      assert a + b == b;
    } else {
      RenderAppend(a[1..], b);
      assert (a + b)[0] == a[0];
      assert (a + b)[1..] == a[1..] + b;
    }
  }

  /** Closing a paragraph after a multiple of three sentences adds one group. */
  lemma {:induction false} GroupsSnoc(ys: seq<string>, m: nat)
    requires m % 3 == 0 && m < |ys| <= m + 3
    ensures Groups(ys) == Groups(ys[..m]) + [ys[m..]]
    decreases m
  {
    if m == 0 {
      assert ys[..0] == [] && ys[0..] == ys;
    } else {
      GroupsSnoc(ys[3..], m - 3);
      assert Groups(ys) == [ys[..3]] + Groups(ys[3..]);
      assert ys[3..][m - 3..] == ys[m..];
      if m == 3 {
        assert ys[3..][..0] == [];
        assert Groups(ys[..3]) == [ys[..3]];
      } else {
        assert ys[..m][..3] == ys[..3];
        assert ys[3..][..m - 3] == ys[..m][3..];
        assert Groups(ys[..m]) == [ys[..3]] + Groups(ys[3..][..m - 3]);
      }
    }
  }

  /** Rendering the sentences up to i + 1 when a paragraph closes at i. */
  lemma FlushStep(sentences: seq<string>, m: nat, i: nat)
    requires m % 3 == 0 && m <= i < |sentences| && i + 1 - m <= 3
    ensures Render(Groups(sentences[..i + 1])) == Render(Groups(sentences[..m])) + Paragraph(sentences[m..i + 1])
  {
    var ys := sentences[..i + 1];
    GroupsSnoc(ys, m);
    assert ys[..m] == sentences[..m];
    assert ys[m..] == sentences[m..i + 1];
    RenderAppend(Groups(sentences[..m]), [sentences[m..i + 1]]);
  }

  lemma ModShift(m: nat, d: nat)
    requires m % 3 == 0
    ensures (m + d) % 3 == d % 3
  {
    assert m == 3 * (m / 3);
  }

  method FormatWatchlist(watchlist: string) returns (formatted: string)
    ensures formatted == Formatted(watchlist)
  {
    var sentences := Sentences(watchlist);
    formatted := "";
    var paragraph: seq<string> := [];
    ghost var m: nat := 0;
    for i := 0 to |sentences|
      invariant m <= i && i - m < 3 && (m < |sentences| ==> m % 3 == 0)
      invariant paragraph == sentences[m..i]
      invariant formatted == Render(Groups(sentences[..m]))
      invariant i == |sentences| ==> m == i
    {
      paragraph := paragraph + [sentences[i]];
      assert paragraph == sentences[m..i + 1];
      ModShift(m, i + 1 - m);
      if (i + 1) % 3 == 0 || i == |sentences| - 1 {
        FlushStep(sentences, m, i);
        formatted := formatted + Paragraph(paragraph);
        paragraph := [];
        m := i + 1;
      }
    }
    assert sentences[..|sentences|] == sentences;
  }

  // ---------------------------------------------------------------------------
  // Source list: `urls_used.split(',').map(url => url.trim())`

  function SourceList(urlsUsed: string): (r: seq<string>)
    ensures |r| == |SplitOn(urlsUsed, ',')|
    ensures forall k :: 0 <= k < |r| ==> r[k] == JsTrim(SplitOn(urlsUsed, ',')[k])
  {
    var pieces := SplitOn(urlsUsed, ',');
    seq(|pieces|, k requires 0 <= k < |pieces| => JsTrim(pieces[k]))
  }

  /** The k-th list item for a stored url list: the JSON string literal, with
      the list's opening bracket on the first and closing bracket on the last. */
  function SourceItem(urls: seq<string>, k: nat): string
    requires k < |urls|
  {
    ListItem(Quoted(urls), k)
  }

  /** Item k of a list, with the list's opening bracket on the first and its
      closing bracket on the last. */
  function ListItem(q: seq<string>, k: nat): string
    requires k < |q|
  {
    (if k == 0 then "[" else "") + (q[k] + Close(q, k))
  }

  /** The list's closing bracket, after its last item. */
  function Close(q: seq<string>, k: nat): string {
    if k == |q| - 1 then "]" else ""
  }

  /** The comma pieces of `Join(", ", q) + "]"`: every item but the first
      keeps the space after its comma, the last keeps the bracket. */
  function TailPieces(q: seq<string>): (r: seq<string>)
    requires q != []
    ensures |r| == |q|
    ensures r[0] == q[0] + Close(q, 0)
    ensures forall k :: 1 <= k < |q| ==> r[k] == " " + (q[k] + Close(q, k))
    decreases |q|
  {
    if |q| == 1 then [q[0] + "]"]
    else
      var t := TailPieces(q[1..]);
      var r := [q[0]] + [" " + t[0]] + t[1..];
      assert forall k :: 2 <= k < |q| ==> r[k] == t[k - 1] && q[k] == q[1..][k - 1] && Close(q, k) == Close(q[1..], k - 1);
      r
  }

  lemma {:induction false} SplitOnFree(s: string, c: char)
    requires c !in s
    ensures SplitOn(s, c) == [s]
  {
    if s != [] {
      SplitOnFree(s[1..], c);
      assert s == [s[0]] + s[1..];
    }
  }

  /** Splitting `x, y` at its commas, for a comma-free x. */
  lemma SplitCommaSpace(x: string, y: string)
    requires ',' !in x
    ensures SplitOn(x + ("," + (" " + y)), ',') == [x] + [" " + SplitOn(y, ',')[0]] + SplitOn(y, ',')[1..]
  {
    SplitOnPrefix(" ", y, ',');
    var t := "," + (" " + y);
    assert t[0] == ',' && t[1..] == " " + y;
    assert SplitOn(t, ',') == [""] + SplitOn(" " + y, ',');
    SplitOnPrefix(x, t, ',');
    assert x + "" == x;
  }

  lemma {:induction false} SplitTail(q: seq<string>)
    requires q != [] && forall k :: 0 <= k < |q| ==> ',' !in q[k]
    ensures SplitOn(Join(", ", q) + "]", ',') == TailPieces(q)
    decreases |q|
  {
    if |q| == 1 {
      SplitOnFree(q[0] + "]", ',');
    } else {
      SplitTail(q[1..]);
      var y := Join(", ", q[1..]) + "]";
      SplitCommaSpace(q[0], y);
      assert Join(", ", q) == q[0] + ", " + Join(", ", q[1..]);
      assert Join(", ", q) + "]" == q[0] + ("," + (" " + y));
    }
  }

  lemma SplitDumps(urls: seq<string>)
    requires urls != [] && forall k :: 0 <= k < |urls| ==> ',' !in urls[k]
    ensures var t := TailPieces(Quoted(urls));
      SplitOn(JsonDumps(urls), ',') == ["[" + t[0]] + t[1..]
  {
    var q := Quoted(urls);
    forall k | 0 <= k < |q| ensures ',' !in q[k] {
      EscapedComma(urls[k]);
    }
    SplitTail(q);
    SplitOnPrefix("[", Join(", ", q) + "]", ',');
    assert JsonDumps(urls) == "[" + (Join(", ", q) + "]");
  }

  lemma FirstPiece(q: seq<string>)
    requires q != []
    ensures "[" + TailPieces(q)[0] == ListItem(q, 0)
  {
  }

  lemma LaterPiece(q: seq<string>, k: nat)
    requires 1 <= k < |q|
    ensures TailPieces(q)[k] == " " + ListItem(q, k)
  {
    assert "" + (q[k] + Close(q, k)) == q[k] + Close(q, k);
  }

  /** json.dumps(urls) split at its commas, for comma-free urls. */
  lemma DumpPieces(urls: seq<string>)
    requires urls != [] && forall k :: 0 <= k < |urls| ==> ',' !in urls[k]
    ensures var pieces := SplitOn(JsonDumps(urls), ',');
      |pieces| == |urls| && forall k :: 0 <= k < |urls| ==> pieces[k] == (if k == 0 then "" else " ") + SourceItem(urls, k)
  {
    SplitDumps(urls);
    var q := Quoted(urls);
    var t := TailPieces(q);
    var pieces := ["[" + t[0]] + t[1..];
    FirstPiece(q);
    forall k | 1 <= k < |urls| ensures pieces[k] == " " + SourceItem(urls, k) {
      LaterPiece(q, k);
      assert pieces[k] == t[k];
    }
  }

  /** When no url contains a comma, the page lists one source per url, in
      order, each still wearing its JSON quotes and the first and last the
      list's brackets. */
  lemma SourcesOfStoredUrls(urls: seq<string>)
    requires urls != [] && forall k :: 0 <= k < |urls| ==> ',' !in urls[k]
    ensures |SourceList(JsonDumps(urls))| == |urls|
    ensures forall k :: 0 <= k < |urls| ==> SourceList(JsonDumps(urls))[k] == SourceItem(urls, k)
  {
    DumpPieces(urls);
    var pieces := SplitOn(JsonDumps(urls), ',');
    forall k | 0 <= k < |urls| ensures JsTrim(pieces[k]) == SourceItem(urls, k) {
      var item := SourceItem(urls, k);
      var quoted := JsonString(urls[k]);
      assert item[0] == '[' || item[0] == quoted[0];
      assert item[|item| - 1] == ']' || item[|item| - 1] == quoted[|quoted| - 1];
      if k == 0 {
        TrimSpacesBefore("", item);
        assert "" + item == item;
      } else {
        TrimSpacesBefore(" ", item);
      }
    }
  }

  /** For any stored url list, a url with m commas becomes m + 1 list items:
      the page lists one source per url exactly when no url has a comma, and
      an empty list still shows one item, `[]`. */
  lemma SourceCountOfStoredUrls(urls: seq<string>)
    ensures |SourceList(JsonDumps(urls))| == if urls == [] then 1 else |urls| + SumOccurrences(urls, ',')
    ensures |SourceList(JsonDumps(urls))| == |urls| <==> urls != [] && forall k :: 0 <= k < |urls| ==> ',' !in urls[k]
  {
    SplitOnCount(JsonDumps(urls), ',');
    DumpsCommaCount(urls);
  }

  // ---------------------------------------------------------------------------
  // Choosing the row: `WHERE country = 'NATO' ORDER BY date_added DESC LIMIT 1`

  /** SQLite's BINARY text order (code point order). */
  predicate StrLe(a: string, b: string) {
    a == [] || (b != [] && (a[0] < b[0] || (a[0] == b[0] && StrLe(a[1..], b[1..]))))
  }

  lemma {:induction false} StrLeTotal(a: string, b: string)
    ensures StrLe(a, b) || StrLe(b, a)
  {
    if a != [] && b != [] && a[0] == b[0] {
      StrLeTotal(a[1..], b[1..]);
    }
  }

  lemma {:induction false} StrLeTrans(a: string, b: string, c: string)
    requires StrLe(a, b) && StrLe(b, c)
    ensures StrLe(a, c)
  {
    if a != [] && a[0] == b[0] && b[0] == c[0] {
      StrLeTrans(a[1..], b[1..], c[1..]);
    }
  }

  /** A NATO row with the greatest date_added, if any. */
  function LatestNato(rows: seq<WatchlistRow>): (r: Option<WatchlistRow>)
    ensures r.None? <==> forall k :: 0 <= k < |rows| ==> rows[k].country != "NATO"
    ensures r.Some? ==> r.value in rows && r.value.country == "NATO"
    ensures r.Some? ==> forall k :: 0 <= k < |rows| && rows[k].country == "NATO" ==> StrLe(rows[k].dateAdded, r.value.dateAdded)
  {
    if rows == [] then None
    else
      var rest := LatestNato(rows[1..]);
      assert forall k :: 1 <= k < |rows| ==> rows[k] == rows[1..][k - 1];
      if rows[0].country != "NATO" then rest
      else if rest.None? then
        assert StrLe(rows[0].dateAdded, rows[0].dateAdded) by { StrLeTotal(rows[0].dateAdded, rows[0].dateAdded); }
        Some(rows[0])
      else if StrLe(rest.value.dateAdded, rows[0].dateAdded) then
        assert forall k :: 0 <= k < |rows| && rows[k].country == "NATO" ==> StrLe(rows[k].dateAdded, rows[0].dateAdded) by {
          forall k | 0 <= k < |rows| && rows[k].country == "NATO" ensures StrLe(rows[k].dateAdded, rows[0].dateAdded) {
            if k == 0 { StrLeTotal(rows[0].dateAdded, rows[0].dateAdded); }
            else { StrLeTrans(rows[k].dateAdded, rest.value.dateAdded, rows[0].dateAdded); }
          }
        }
        Some(rows[0])
      else
        StrLeTotal(rest.value.dateAdded, rows[0].dateAdded);
        rest
  }

  /** What the page shows. */
  datatype Page =
    | WatchlistPage(content: string, dateAdded: string, sources: seq<string>)
    | NoDataPage
    | ErrorPage

  /** The page shows this NATO row, and no NATO row is newer. */
  ghost predicate ShowsLatest(p: Page, rows: seq<WatchlistRow>, row: WatchlistRow) {
    && row in rows && row.country == "NATO"
    && p == WatchlistPage(Formatted(row.watchlist), row.dateAdded, SourceList(row.urlsUsed))
    && forall k :: 0 <= k < |rows| && rows[k].country == "NATO" ==> StrLe(rows[k].dateAdded, row.dateAdded)
  }

  /** The page for the database's watchlist table (None when it does not exist,
      so the query fails). */
  function NatoPage(watchlist: Option<WatchlistTable>): (p: Page)
    ensures watchlist.None? <==> p.ErrorPage?
    ensures p.NoDataPage? <==> watchlist.Some? && forall k :: 0 <= k < |watchlist.value.rows| ==> watchlist.value.rows[k].country != "NATO"
    ensures p.WatchlistPage? ==> exists row :: ShowsLatest(p, watchlist.value.rows, row)
  {
    match watchlist
    case None => ErrorPage
    case Some(t) =>
      match LatestNato(t.rows)
      case None => NoDataPage
      case Some(row) =>
        var p := WatchlistPage(Formatted(row.watchlist), row.dateAdded, SourceList(row.urlsUsed));
        assert ShowsLatest(p, t.rows, row);
        p
  }
}
