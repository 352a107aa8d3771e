/**
 The text transformation of `deploy/activate-route.py`: a managed snippet is inserted into the Caddy
 configuration, once, directly before the catch-all route.
 */
module Route {
  import opened Bytes

  const TRACE_MARKER := "# trace-it managed subpath"
  const ERP_MARKER := "# trace-it ERP managed subpath"

  const TRACE_SNIPPET :=
    "\t# trace-it managed subpath\n"
    + ("\tredir /nexia/trace-it /nexia/trace-it/ 308\n"
       + ("\thandle /nexia/trace-it/* {\n" + ("\t\treverse_proxy 127.0.0.1:18173\n" + "\t}\n\n")))

  const ERP_SNIPPET :=
    "\t# trace-it ERP managed subpath\n"
    + ("\tredir /nexia/erp /nexia/erp/ 308\n"
       + ("\thandle /nexia/erp/* {\n" + ("\t\treverse_proxy 127.0.0.1:18009\n" + "\t}\n\n")))

  const TRACE_ROUTE := "/nexia/trace-it"
  const ERP_ROUTE := "/nexia/erp"
  const ANCHOR := "\thandle_path /nexia/* {"
  const DOMAIN := "gex-dashboard.hopto.org {"

  /** The two routes the script can be asked for: without arguments, and with `--erp`. */
  datatype Request = TRACE | ERP

  function Marker(r: Request): string {
    if r.TRACE? then TRACE_MARKER else ERP_MARKER
  }

  function Snippet(r: Request): string {
    if r.TRACE? then TRACE_SNIPPET else ERP_SNIPPET
  }

  function Path(r: Request): string {
    if r.TRACE? then TRACE_ROUTE else ERP_ROUTE
  }

  /** How a run ends: nothing to do, a new text, or one of the script's three refusals. */
  datatype Outcome =
    | AlreadyThere
    | Inserted(text: string)
    | SnippetDiffers
    | RouteNeedsReview
    | LayoutChanged

  ghost function Activate(original: string, r: Request): Outcome {
    if Contains(original, Marker(r)) then
      (if Contains(original, Snippet(r)) then AlreadyThere else SnippetDiffers)
    else if Contains(original, Path(r)) then RouteNeedsReview
    else if Count(original, ANCHOR) != 1 || Count(original, DOMAIN) != 1 then LayoutChanged
    else Inserted(ReplaceFirst(original, ANCHOR, Snippet(r) + ANCHOR))
  }

  /** The file after a run. */
  ghost function Left(original: string, r: Request): string {
    var outcome := Activate(original, r);
    if outcome.Inserted? then outcome.text else original
  }

  // ----- how a run ends, for any file

  /** The files a request is inserted into: none of its own text yet, one anchor and one domain. */
  ghost predicate TakesRequest(original: string, r: Request) {
    && !Contains(original, Marker(r)) && !Contains(original, Path(r))
    && Count(original, ANCHOR) == 1 && Count(original, DOMAIN) == 1
  }

  /** A file is changed exactly when it takes the request, and then by writing the snippet directly
      before the one anchor; the other files are left as they are, for the reason given. */
  lemma {:induction false} RunIs(original: string, r: Request)
    ensures Activate(original, r).Inserted? <==> TakesRequest(original, r)
    ensures TakesRequest(original, r) ==>
              exists left, right ::
                original == left + ANCHOR + right && Left(original, r) == left + Snippet(r) + ANCHOR + right
    ensures !TakesRequest(original, r) ==> Left(original, r) == original
    ensures Activate(original, r).AlreadyThere? <==>
            Contains(original, Marker(r)) && Contains(original, Snippet(r))
    ensures Activate(original, r).SnippetDiffers? <==>
            Contains(original, Marker(r)) && !Contains(original, Snippet(r))
    ensures Activate(original, r).RouteNeedsReview? <==>
            !Contains(original, Marker(r)) && Contains(original, Path(r))
  {
    hide Contains, Snippet, ReplaceFirst, Marker, Path;
    if TakesRequest(original, r) {
      CountedIsContained(original, ANCHOR);
      var left, right := FirstPlace(original, ANCHOR);
      FirstCounts(left, ANCHOR, right, Snippet(r) + ANCHOR);
      assert left + (Snippet(r) + ANCHOR) + right == left + Snippet(r) + ANCHOR + right;
    }
  }

  // ----- what the constants have to do with one another

  predicate TabStarts(s: string) {
    s != "" && s[0] == '\t'
  }

  lemma {:induction false} Needles(r: Request)
    ensures StopsBefore(Marker(r), '\t') && StopsBefore(Path(r), '\t')
    ensures StopsBefore(ANCHOR, '\t') && StopsBefore(DOMAIN, '\t')
    ensures TabStarts(ANCHOR) && TabStarts(Snippet(r))
  {
  }

  /** A text of five lines, each starting with a tab, contains what one of its lines does. */
  lemma {:induction false} FiveLines(a: string, b: string, c: string, d: string, e: string, needle: string)
    requires TabStarts(b) && TabStarts(c) && TabStarts(d) && TabStarts(e) && StopsBefore(needle, '\t')
    requires !Contains(a, needle) && !Contains(b, needle) && !Contains(c, needle)
    requires !Contains(d, needle) && !Contains(e, needle)
    ensures !Contains(a + (b + (c + (d + e))), needle)
  {
    ContainsConcat(d, e, needle);
    ContainsConcat(c, d + e, needle);
    ContainsConcat(b, c + (d + e), needle);
    ContainsConcat(a, b + (c + (d + e)), needle);
  }

  lemma {:induction false} TraceLacksErp()
    ensures !Contains(TRACE_SNIPPET, ERP_MARKER)
    ensures !Contains(TRACE_SNIPPET, ERP_ROUTE)
  {
    TraceLacksErpMarker();
    TraceLacksErpRoute();
  }

  lemma {:induction false} TraceLacksErpMarker()
    ensures !Contains(TRACE_SNIPPET, ERP_MARKER)
  {
    var a, b, c := "\t# trace-it managed subpath\n", "\tredir /nexia/trace-it /nexia/trace-it/ 308\n",
                   "\thandle /nexia/trace-it/* {\n";
    var d, e := "\t\treverse_proxy 127.0.0.1:18173\n", "\t}\n\n";
    assert ERP_MARKER[11] == 'E';
    LacksCharacter(a, ERP_MARKER, 11);
    LacksCharacter(b, ERP_MARKER, 11);
    LacksCharacter(c, ERP_MARKER, 11);
    LacksCharacter(d, ERP_MARKER, 11);
    LacksCharacter(e, ERP_MARKER, 11);
    FiveLines(a, b, c, d, e, ERP_MARKER);
  }

  lemma {:induction false} TraceLacksErpRoute()
    ensures !Contains(TRACE_SNIPPET, ERP_ROUTE)
  {
    var a, b, c := "\t# trace-it managed subpath\n", "\tredir /nexia/trace-it /nexia/trace-it/ 308\n",
                   "\thandle /nexia/trace-it/* {\n";
    var d, e := "\t\treverse_proxy 127.0.0.1:18173\n", "\t}\n\n";
    assert ERP_ROUTE[0] == '/' && ERP_ROUTE[9] == 'p';
    LacksCharacter(a, ERP_ROUTE, 0);
    LacksCharacter(b, ERP_ROUTE, 9);
    LacksCharacter(c, ERP_ROUTE, 9);
    LacksCharacter(d, ERP_ROUTE, 0);
    LacksCharacter(e, ERP_ROUTE, 0);
    FiveLines(a, b, c, d, e, ERP_ROUTE);
  }

  lemma {:induction false} ErpLacksTrace()
    ensures !Contains(ERP_SNIPPET, TRACE_MARKER)
    ensures !Contains(ERP_SNIPPET, TRACE_ROUTE)
  {
    ErpLacksTraceMarker();
    ErpLacksTraceRoute();
  }

  lemma {:induction false} ErpLacksTraceMarker()
    ensures !Contains(ERP_SNIPPET, TRACE_MARKER)
  {
    var a, b, c := "\t# trace-it ERP managed subpath\n", "\tredir /nexia/erp /nexia/erp/ 308\n",
                   "\thandle /nexia/erp/* {\n";
    var d, e := "\t\treverse_proxy 127.0.0.1:18009\n", "\t}\n\n";
    assert TRACE_MARKER[0] == '#' && TRACE_MARKER[11] == 'm';
    forall i: nat
      ensures !OccursAt(a, TRACE_MARKER, i)
    {
      OccursChar(a, TRACE_MARKER, i, 0);
      OccursChar(a, TRACE_MARKER, i, 11);
    }
    LacksCharacter(b, TRACE_MARKER, 0);
    LacksCharacter(c, TRACE_MARKER, 0);
    LacksCharacter(d, TRACE_MARKER, 0);
    LacksCharacter(e, TRACE_MARKER, 0);
    FiveLines(a, b, c, d, e, TRACE_MARKER);
  }

  lemma {:induction false} ErpLacksTraceRoute()
    ensures !Contains(ERP_SNIPPET, TRACE_ROUTE)
  {
    var a, b, c := "\t# trace-it ERP managed subpath\n", "\tredir /nexia/erp /nexia/erp/ 308\n",
                   "\thandle /nexia/erp/* {\n";
    var d, e := "\t\treverse_proxy 127.0.0.1:18009\n", "\t}\n\n";
    assert TRACE_ROUTE[0] == '/' && TRACE_ROUTE[7] == 't';
    LacksCharacter(a, TRACE_ROUTE, 0);
    LacksCharacter(b, TRACE_ROUTE, 7);
    LacksCharacter(c, TRACE_ROUTE, 7);
    LacksCharacter(d, TRACE_ROUTE, 0);
    LacksCharacter(e, TRACE_ROUTE, 0);
    FiveLines(a, b, c, d, e, TRACE_ROUTE);
  }

  lemma {:induction false} LinesLackAnchorAndDomain(a: string, b: string, c: string, d: string, e: string)
    requires TabStarts(b) && TabStarts(c) && TabStarts(d) && TabStarts(e)
    requires forall k :: 0 <= k < |a| ==> a[k] != '_' && a[k] != '{'
    requires forall k :: 0 <= k < |b| ==> b[k] != '_' && b[k] != '{'
    requires forall k :: 0 <= k < |c| ==> c[k] != '_' && c[k] != 'g'
    requires forall k :: 0 <= k < |d| ==> d[k] != '*' && d[k] != 'g'
    requires forall k :: 0 <= k < |e| ==> e[k] != '*' && e[k] != 'g'
    ensures !Contains(a + (b + (c + (d + e))), ANCHOR)
    ensures !Contains(a + (b + (c + (d + e))), DOMAIN)
  {
    assert ANCHOR[7] == '_' && ANCHOR[20] == '*' && DOMAIN[0] == 'g' && DOMAIN[24] == '{';
    LacksCharacter(a, ANCHOR, 7);
    LacksCharacter(b, ANCHOR, 7);
    LacksCharacter(c, ANCHOR, 7);
    LacksCharacter(d, ANCHOR, 20);
    LacksCharacter(e, ANCHOR, 20);
    FiveLines(a, b, c, d, e, ANCHOR);
    LacksCharacter(a, DOMAIN, 24);
    LacksCharacter(b, DOMAIN, 24);
    LacksCharacter(c, DOMAIN, 0);
    LacksCharacter(d, DOMAIN, 0);
    LacksCharacter(e, DOMAIN, 0);
    FiveLines(a, b, c, d, e, DOMAIN);
  }

  lemma {:induction false} TraceLacksAnchorAndDomain()
    ensures !Contains(TRACE_SNIPPET, ANCHOR) && !Contains(TRACE_SNIPPET, DOMAIN)
  {
    LinesLackAnchorAndDomain(
      "\t# trace-it managed subpath\n", "\tredir /nexia/trace-it /nexia/trace-it/ 308\n",
      "\thandle /nexia/trace-it/* {\n", "\t\treverse_proxy 127.0.0.1:18173\n", "\t}\n\n");
  }

  lemma {:induction false} ErpLacksAnchorAndDomain()
    ensures !Contains(ERP_SNIPPET, ANCHOR) && !Contains(ERP_SNIPPET, DOMAIN)
  {
    LinesLackAnchorAndDomain(
      "\t# trace-it ERP managed subpath\n", "\tredir /nexia/erp /nexia/erp/ 308\n",
      "\thandle /nexia/erp/* {\n", "\t\treverse_proxy 127.0.0.1:18009\n", "\t}\n\n");
  }

  lemma {:induction false} SnippetLacksAnchorAndDomain(r: Request)
    ensures !Contains(Snippet(r), ANCHOR) && !Contains(Snippet(r), DOMAIN)
  {
    hide Contains;
    TraceLacksAnchorAndDomain();
    ErpLacksAnchorAndDomain();
  }

  /** A snippet carries its marker, at its second character and nowhere else. */
  lemma {:induction false} MarkerInSnippet(r: Request, i: nat)
    ensures OccursAt(Snippet(r), Marker(r), i) <==> i == 1
  {
    if r.TRACE? {
      MarkerInTrace(i);
    } else {
      MarkerInErp(i);
    }
  }

  lemma {:induction false} MarkerInTrace(i: nat)
    ensures OccursAt(TRACE_SNIPPET, TRACE_MARKER, i) <==> i == 1
  {
    hide OccursAt;
    MarkerInTraceLine();
    MarkerInLines("\t# trace-it managed subpath\n", "\tredir /nexia/trace-it /nexia/trace-it/ 308\n",
                  "\thandle /nexia/trace-it/* {\n", "\t\treverse_proxy 127.0.0.1:18173\n", "\t}\n\n",
                  TRACE_MARKER, i);
  }

  lemma {:induction false} MarkerInErp(i: nat)
    ensures OccursAt(ERP_SNIPPET, ERP_MARKER, i) <==> i == 1
  {
    hide OccursAt;
    MarkerInErpLine();
    MarkerInLines("\t# trace-it ERP managed subpath\n", "\tredir /nexia/erp /nexia/erp/ 308\n",
                  "\thandle /nexia/erp/* {\n", "\t\treverse_proxy 127.0.0.1:18009\n", "\t}\n\n",
                  ERP_MARKER, i);
  }

  lemma {:induction false} MarkerInTraceLine()
    ensures OccursAt("\t# trace-it managed subpath\n", TRACE_MARKER, 1)
  {
    hide OccursAt;
    CommentLine(TRACE_MARKER);
    assert "\t" + TRACE_MARKER + "\n" == "\t# trace-it managed subpath\n";
  }

  lemma {:induction false} MarkerInErpLine()
    ensures OccursAt("\t# trace-it ERP managed subpath\n", ERP_MARKER, 1)
  {
    hide OccursAt;
    CommentLine(ERP_MARKER);
    assert "\t" + ERP_MARKER + "\n" == "\t# trace-it ERP managed subpath\n";
  }

  lemma {:induction false} CommentLine(marker: string)
    ensures OccursAt("\t" + marker + "\n", marker, 1)
  {
    assert OccursAt(marker, marker, 0);
    OccursInLonger("\t", marker, "\n", marker, 0);
  }

  /** The only hash of the five lines is the second character of the first. */
  lemma {:induction false} MarkerInLines(a: string, b: string, c: string, d: string, e: string, marker: string, i: nat)
    requires |a| > 1 && forall k :: 0 <= k < |a| && k != 1 ==> a[k] != '#'
    requires (forall k :: 0 <= k < |b| ==> b[k] != '#') && (forall k :: 0 <= k < |c| ==> c[k] != '#')
    requires (forall k :: 0 <= k < |d| ==> d[k] != '#') && (forall k :: 0 <= k < |e| ==> e[k] != '#')
    requires marker != "" && marker[0] == '#' && OccursAt(a, marker, 1)
    ensures OccursAt(a + (b + (c + (d + e))), marker, i) <==> i == 1
  {
    var rest := b + (c + (d + e));
    OccursInLonger("", a, rest, marker, 1);
    assert "" + a + rest == a + rest;
    OccursChar(a + rest, marker, i, 0);
  }

  // ----- the file, taken apart

  function Tail(order: seq<Request>, right: string): string {
    if order == [] then ANCHOR + right else Snippet(order[0]) + Tail(order[1..], right)
  }

  /** The file with the snippets of `order` directly before its anchor. */
  function Layout(left: string, order: seq<Request>, right: string): string {
    left + Tail(order, right)
  }

  function Block(order: seq<Request>): string {
    if order == [] then "" else Snippet(order[0]) + Block(order[1..])
  }

  /** A file the script has not touched: one anchor, one domain line, neither route nor marker. */
  ghost predicate Untouched(s: string) {
    && Count(s, ANCHOR) == 1
    && Count(s, DOMAIN) == 1
    && forall r: Request :: !Contains(s, Marker(r)) && !Contains(s, Path(r))
  }

  predicate Distinct(order: seq<Request>) {
    forall i, j :: 0 <= i < j < |order| ==> order[i] != order[j]
  }

  lemma {:induction false} Regroup(a: string, b: string, c: string)
    ensures a + (b + c) == (a + b) + c
  {
  }

  lemma {:induction false} TailIsBlock(order: seq<Request>, right: string)
    ensures Tail(order, right) == Block(order) + (ANCHOR + right)
    ensures TabStarts(Tail(order, right))
  {
    hide Snippet;
    Needles(TRACE);
    if order == [] {
      assert "" + (ANCHOR + right) == ANCHOR + right;
    } else {
      Needles(order[0]);
      TailIsBlock(order[1..], right);
      Regroup(Snippet(order[0]), Block(order[1..]), ANCHOR + right);
    }
  }

  lemma {:induction false} BlockConcat(a: seq<Request>, b: seq<Request>)
    ensures Block(a + b) == Block(a) + Block(b)
    ensures a != [] ==> TabStarts(Block(a))
  {
    hide Snippet;
    if a == [] {
      assert a + b == b;
    } else {
      Needles(a[0]);
      assert (a + b)[1..] == a[1..] + b;
      BlockConcat(a[1..], b);
      hide TabStarts;
    }
  }

  /** What no snippet contains, they do not contain together. */
  lemma {:induction false} BlockLacks(left: string, order: seq<Request>, needle: string)
    requires StopsBefore(needle, '\t') && !Contains(left, needle)
    requires forall i :: 0 <= i < |order| ==> !Contains(Snippet(order[i]), needle)
    ensures !Contains(left + Block(order), needle)
    decreases |order|
  {
    hide Snippet, Contains;
    if order == [] {
      assert left + Block(order) == left;
    } else {
      Needles(order[0]);
      ContainsConcat(left, Snippet(order[0]), needle);
      assert order[1..] == order[1..];
      BlockLacks(left + Snippet(order[0]), order[1..], needle);
      assert left + Block(order) == left + Snippet(order[0]) + Block(order[1..]);
    }
  }

  lemma {:induction false} TailCount(order: seq<Request>, right: string, needle: string)
    requires StopsBefore(needle, '\t')
    requires forall i :: 0 <= i < |order| ==> !Contains(Snippet(order[i]), needle)
    ensures Count(Tail(order, right), needle) == Count(ANCHOR + right, needle)
  {
    hide Snippet, Contains, Count;
    if order != [] {
      Needles(order[0]);
      TailIsBlock(order[1..], right);
      CountConcat(Snippet(order[0]), Tail(order[1..], right), needle);
      CountedIsContained(Snippet(order[0]), needle);
      TailCount(order[1..], right, needle);
    }
  }

  /** A needle is counted in the file as it was before the snippets came. */
  lemma {:induction false} LayoutCount(left: string, order: seq<Request>, right: string, needle: string)
    requires StopsBefore(needle, '\t')
    requires forall i :: 0 <= i < |order| ==> !Contains(Snippet(order[i]), needle)
    ensures Count(Layout(left, order, right), needle) == Count(left + ANCHOR + right, needle)
  {
    hide Snippet, Contains, Count;
    TailIsBlock(order, right);
    TailCount(order, right, needle);
    CountConcat(left, Tail(order, right), needle);
    CountConcat(left, ANCHOR + right, needle);
    assert left + ANCHOR + right == left + (ANCHOR + right);
  }

  /** The texts on both sides of a request's snippet know nothing of it. */
  lemma {:induction false} OtherSnippetsLack(r: Request, order: seq<Request>)
    requires r !in order
    ensures forall i :: 0 <= i < |order| ==>
              !Contains(Snippet(order[i]), Marker(r)) && !Contains(Snippet(order[i]), Path(r))
  {
    hide Contains;
    TraceLacksErp();
    ErpLacksTrace();
    forall i | 0 <= i < |order|
      ensures !Contains(Snippet(order[i]), Marker(r)) && !Contains(Snippet(order[i]), Path(r))
    {
      assert order[i] in order;
      assert order[i] != r;
    }
  }

  // ----- one run

  lemma {:induction false} RunInserts(left: string, order: seq<Request>, right: string, r: Request)
    requires Untouched(left + ANCHOR + right) && r !in order
    ensures Activate(Layout(left, order, right), r) == Inserted(Layout(left, order + [r], right))
  {
    hide Snippet, Contains, Count, ReplaceFirst, Tail, Block, Marker, Path;
    var s := Layout(left, order, right);
    var original := left + ANCHOR + right;
    Needles(r);
    OtherSnippetsLack(r, order);
    LayoutCount(left, order, right, Marker(r));
    LayoutCount(left, order, right, Path(r));
    CountedIsContained(s, Marker(r));
    CountedIsContained(s, Path(r));
    CountedIsContained(original, Marker(r));
    CountedIsContained(original, Path(r));
    forall i | 0 <= i < |order|
      ensures !Contains(Snippet(order[i]), ANCHOR) && !Contains(Snippet(order[i]), DOMAIN)
    {
      SnippetLacksAnchorAndDomain(order[i]);
    }
    LayoutCount(left, order, right, ANCHOR);
    LayoutCount(left, order, right, DOMAIN);
    LeftLacksAnchor(left, right);
    BlockLacks(left, order, ANCHOR);
    InsertedWhere(left, order, right, r);
  }

  lemma {:induction false} LeftLacksAnchor(left: string, right: string)
    requires Count(left + ANCHOR + right, ANCHOR) == 1
    ensures !Contains(left, ANCHOR)
  {
    hide Contains;
    var rest := ANCHOR + right;
    assert left + ANCHOR + right == left + rest;
    CountConcat(left, rest, ANCHOR);
    assert OccursAt(rest, ANCHOR, 0);
    CountedIsContained(left, ANCHOR);
  }

  lemma {:induction false} BlockOfOne(r: Request)
    ensures Block([r]) == Snippet(r)
  {
    hide Snippet;
    assert [r][1..] == [];
    assert Block([]) == "";
    assert Snippet(r) + "" == Snippet(r);
  }

  lemma {:induction false} InsertedWhere(left: string, order: seq<Request>, right: string, r: Request)
    requires !Contains(left + Block(order), ANCHOR)
    ensures ReplaceFirst(Layout(left, order, right), ANCHOR, Snippet(r) + ANCHOR)
         == Layout(left, order + [r], right)
  {
    hide Contains, Snippet, ReplaceFirst, Tail, Block;
    Needles(r);
    TailIsBlock(order, right);
    TailIsBlock(order + [r], right);
    BlockConcat(order, [r]);
    BlockOfOne(r);
    ReplaceAt(left + Block(order), ANCHOR, right, Snippet(r) + ANCHOR);
    SameText(left, Block(order), Snippet(r), ANCHOR, right);
  }

  lemma {:induction false} SameText(left: string, block: string, more: string, anchor: string, right: string)
    ensures left + (block + (anchor + right)) == (left + block) + anchor + right
    ensures left + ((block + more) + (anchor + right)) == (left + block) + (more + anchor) + right
  {
  }

  /** The file around one of its snippets. */
  lemma {:induction false} AroundSnippet(left: string, before: seq<Request>, r: Request, after: seq<Request>, right: string)
    ensures Layout(left, before + [r] + after, right)
         == (left + Block(before)) + Snippet(r) + Tail(after, right)
  {
    hide Snippet, Tail, Block;
    TailIsBlock(before + [r] + after, right);
    TailIsBlock(after, right);
    BlockConcat(before + [r], after);
    BlockConcat(before, [r]);
    BlockOfOne(r);
    FivePieces(left, Block(before), Snippet(r), Block(after), ANCHOR + right);
  }

  lemma {:induction false} FivePieces(a: string, b: string, c: string, d: string, e: string)
    ensures a + (((b + c) + d) + e) == (a + b) + c + (d + e)
  {
  }

  lemma {:induction false} RunFindsItsOwn(left: string, order: seq<Request>, right: string, r: Request)
    requires r in order
    ensures Activate(Layout(left, order, right), r) == AlreadyThere
  {
    hide Snippet, Marker, Tail, Block, Count, ReplaceFirst;
    var k :| 0 <= k < |order| && order[k] == r;
    var before, after := order[..k], order[k + 1..];
    assert order == before + [r] + after;
    AroundSnippet(left, before, r, after, right);
    var a, b := left + Block(before), Tail(after, right);
    MarkerInSnippet(r, 1);
    OccursInLonger(a, Snippet(r), b, Marker(r), 1);
    assert OccursAt(Snippet(r), Snippet(r), 0);
    OccursInLonger(a, Snippet(r), b, Snippet(r), 0);
  }

  // ----- every sequence of runs

  ghost function AfterRuns(s: string, runs: seq<Request>): string
    decreases |runs|
  {
    if runs == [] then s else AfterRuns(Left(s, runs[0]), runs[1..])
  }

  ghost predicate AllSucceed(s: string, runs: seq<Request>)
    decreases |runs|
  {
    runs == []
    || ((Activate(s, runs[0]).AlreadyThere? || Activate(s, runs[0]).Inserted?)
        && AllSucceed(Left(s, runs[0]), runs[1..]))
  }

  /** The requests in the order they were first made. */
  function Requested(order: seq<Request>, runs: seq<Request>): seq<Request>
    decreases |runs|
  {
    if runs == [] then order
    else Requested(if runs[0] in order then order else order + [runs[0]], runs[1..])
  }

  lemma {:induction false} RunsFrom(left: string, order: seq<Request>, right: string, runs: seq<Request>)
    requires Untouched(left + ANCHOR + right) && Distinct(order)
    ensures AllSucceed(Layout(left, order, right), runs)
    ensures AfterRuns(Layout(left, order, right), runs) == Layout(left, Requested(order, runs), right)
    ensures Distinct(Requested(order, runs))
    ensures forall r :: r in Requested(order, runs) <==> r in order || r in runs
    decreases |runs|
  {
    hide Layout, Untouched;
    if runs != [] {
      var r := runs[0];
      if r in order {
        RunFindsItsOwn(left, order, right, r);
        RunsFrom(left, order, right, runs[1..]);
      } else {
        RunInserts(left, order, right, r);
        RunsFrom(left, order + [r], right, runs[1..]);
      }
    }
  }

  // ----- exactly once, and out again

  /** A request's snippet is found at one place of the file only. */
  lemma {:induction false} SnippetOnce(left: string, before: seq<Request>, r: Request, after: seq<Request>, right: string, i: nat)
    requires Untouched(left + ANCHOR + right) && r !in before && r !in after
    ensures OccursAt(Layout(left, before + [r] + after, right), Snippet(r), i)
       <==> i == |left + Block(before)|
  {
    hide Snippet, Marker, Path, Contains, Count;
    var a, b := left + Block(before), Tail(after, right);
    AroundSnippet(left, before, r, after, right);
    var s := a + Snippet(r) + b;
    Needles(r);
    TailIsBlock(after, right);
    SidesLackMarker(left, before, r, after, right);
    assert OccursAt(Snippet(r), Snippet(r), 0);
    OccursInLonger(a, Snippet(r), b, Snippet(r), 0);
    if OccursAt(s, Snippet(r), i) {
      MarkerInside(s, r, i);
      MarkerPlace(a, r, b, i + 1);
    }
  }

  lemma {:induction false} MarkerInside(s: string, r: Request, i: nat)
    requires OccursAt(s, Snippet(r), i)
    ensures OccursAt(s, Marker(r), i + 1)
  {
    hide Snippet, Marker;
    MarkerInSnippet(r, 1);
    forall k | 0 <= k < |Marker(r)|
      ensures s[i + 1 + k] == Marker(r)[k]
    {
      OccursChar(s, Snippet(r), i, 1 + k);
      OccursChar(Snippet(r), Marker(r), 1, k);
    }
  }

  lemma {:induction false} MarkerPlace(a: string, r: Request, b: string, i: nat)
    requires TabStarts(b) && !Contains(a, Marker(r)) && !Contains(b, Marker(r))
    requires OccursAt(a + Snippet(r) + b, Marker(r), i)
    ensures i == |a| + 1
  {
    hide Snippet, Marker;
    Needles(r);
    OccursInOne(a + Snippet(r), b, Marker(r), i);
    OccursInOne(a, Snippet(r), Marker(r), i);
    if i >= |a| {
      MarkerInSnippet(r, i - |a|);
    }
  }

  lemma {:induction false} SidesLackMarker(left: string, before: seq<Request>, r: Request, after: seq<Request>, right: string)
    requires Untouched(left + ANCHOR + right) && r !in before && r !in after
    ensures !Contains(left + Block(before), Marker(r)) && !Contains(Tail(after, right), Marker(r))
  {
    hide Snippet, Marker, Path, Contains, Count;
    Needles(r);
    OtherSnippetsLack(r, before);
    OtherSnippetsLack(r, after);
    assert left + ANCHOR + right == left + (ANCHOR + right);
    ContainsConcat(left, ANCHOR + right, Marker(r));
    BlockLacks(left, before, Marker(r));
    TailCount(after, right, Marker(r));
    CountedIsContained(Tail(after, right), Marker(r));
    CountedIsContained(ANCHOR + right, Marker(r));
  }

  lemma {:induction false} DeletedSnippet(left: string, before: seq<Request>, r: Request, after: seq<Request>, right: string)
    requires Untouched(left + ANCHOR + right) && r !in before && r !in after
    ensures Snippet(r) != ""
    ensures Delete(Layout(left, before + [r] + after, right), Snippet(r))
         == Layout(left, before + after, right)
  {
    hide Snippet, Marker, Path, Contains, Count, Delete, Untouched, Block, Tail, OccursAt;
    Needles(r);
    var a, b := left + Block(before), Tail(after, right);
    AroundSnippet(left, before, r, after, right);
    forall i: nat | OccursAt(a + Snippet(r) + b, Snippet(r), i)
      ensures i == |a|
    {
      SnippetOnce(left, before, r, after, right, i);
    }
    DeleteOnly(a, Snippet(r), b);
    TailIsBlock(before + after, right);
    TailIsBlock(after, right);
    BlockConcat(before, after);
  }

  /** The snippets deleted, one request after the other. */
  function DeleteAll(s: string, order: seq<Request>): string
    decreases |order|
  {
    if order == [] || Snippet(order[0]) == "" then s
    else DeleteAll(Delete(s, Snippet(order[0])), order[1..])
  }

  lemma {:induction false} DeleteAllRestores(left: string, order: seq<Request>, right: string)
    requires Untouched(left + ANCHOR + right) && Distinct(order)
    ensures DeleteAll(Layout(left, order, right), order) == left + ANCHOR + right
  {
    hide Snippet, Untouched, Delete;
    if order == [] {
      assert left + ANCHOR + right == left + (ANCHOR + right);
    } else {
      assert order == [] + [order[0]] + order[1..] && [] + order[1..] == order[1..];
      DeletedSnippet(left, [], order[0], order[1..], right);
      DeleteAllRestores(left, order[1..], right);
    }
  }

  /** From any untouched file, every sequence of runs succeeds. The file ends up with the snippet of
      each request made, once and directly before the anchor, in the order of first request; anchor
      and domain are still there once; a further run of a request made changes nothing; deleting the
      snippets gives the original bytes back. */
  lemma {:induction false} EverySequenceOfRuns(original: string, runs: seq<Request>)
    returns (left: string, right: string, order: seq<Request>)
    requires Untouched(original)
    ensures original == left + ANCHOR + right
    ensures Distinct(order) && forall r :: r in order <==> r in runs
    ensures AllSucceed(original, runs)
    ensures AfterRuns(original, runs) == left + Block(order) + ANCHOR + right
    ensures Count(AfterRuns(original, runs), ANCHOR) == 1
    ensures Count(AfterRuns(original, runs), DOMAIN) == 1
    ensures forall r :: r in runs ==> Activate(AfterRuns(original, runs), r) == AlreadyThere
    ensures DeleteAll(AfterRuns(original, runs), order) == original
  {
    hide Snippet, Marker, Path, Contains, Count, AllSucceed, AfterRuns, Requested, DeleteAll, Activate;
    left, right := FirstOccurrence(original, ANCHOR);
    order := Requested([], runs);
    assert original == Layout(left, [], right) by {
      assert left + ANCHOR + right == left + (ANCHOR + right);
    }
    RunsFrom(left, [], right, runs);
    var s := Layout(left, order, right);
    TailIsBlock(order, right);
    assert s == left + Block(order) + ANCHOR + right;
    forall i | 0 <= i < |order|
      ensures !Contains(Snippet(order[i]), ANCHOR) && !Contains(Snippet(order[i]), DOMAIN)
    {
      SnippetLacksAnchorAndDomain(order[i]);
    }
    Needles(TRACE);
    LayoutCount(left, order, right, ANCHOR);
    LayoutCount(left, order, right, DOMAIN);
    forall r | r in runs
      ensures Activate(s, r) == AlreadyThere
    {
      RunFindsItsOwn(left, order, right, r);
    }
    DeleteAllRestores(left, order, right);
  }
}
