/** Where each line of a manifest log came from.

    The writer's run carries this view beside the bytes: every line, finished or not, is made of the
    beginnings of lines somebody set out to write, usually of one. The lemmas say what the view
    becomes when the log grows or loses a suffix, and what a reader of the bytes gets. */
module ManifestHistory {
  import opened Text
  import opened ManifestRecord
  import opened ManifestLog

  /** Whose text it is: a log header's, or that of the i-th append that wrote. */
  datatype Tag = Header(record: Record) | Attempt(i: nat)

  datatype Part = Part(text: string, tag: Tag)

  /** More than one part: the later ones were written where an earlier line had been left open. */
  type Line = seq<Part>

  /** The finished lines, and what follows the last newline. */
  datatype View = View(done: seq<Line>, open: Line)

  function Texts(l: Line): seq<string> { seq(|l|, i requires 0 <= i < |l| => l[i].text) }

  function LineText(l: Line): string { Join(Texts(l)) }

  function Unlines(done: seq<Line>): string
  {
    if done == [] then ""
    else Unlines(done[..|done| - 1]) + (LineText(done[|done| - 1]) + "\n")
  }

  function LogOf(v: View): string { Unlines(v.done) + LineText(v.open) }

  function LinesOf(v: View): seq<Line> { v.done + [v.open] }

  predicate PartOk(p: Part, att: seq<Record>)
  {
    p.text != "" &&
    match p.tag
    case Header(h) => h.op == OPEN && p.text <= ToManifestLine(h)
    case Attempt(i) => i < |att| && p.text <= ToManifestLine(att[i])
  }

  predicate LineOk(l: Line, att: seq<Record>) { forall a | 0 <= a < |l| :: PartOk(l[a], att) }

  /** Every append in l wrote before every append in m. */
  ghost predicate Before(l: Line, m: Line)
  {
    forall a, b | 0 <= a < |l| && 0 <= b < |m| && l[a].tag.Attempt? && m[b].tag.Attempt? :: l[a].tag.i < m[b].tag.i
  }

  ghost predicate Ordered(ls: seq<Line>)
  {
    forall a, b | 0 <= a < b < |ls| :: Before(ls[a], ls[b])
  }

  ghost predicate Wf(v: View, att: seq<Record>)
  {
    (forall a | 0 <= a < |LinesOf(v)| :: LineOk(LinesOf(v)[a], att)) && Ordered(LinesOf(v))
  }

  /** The line of attempt i alone, whole. */
  function Whole(i: nat, att: seq<Record>): Line
    requires i < |att|
  {
    [Part(ToManifestLine(att[i]), Attempt(i))]
  }

  /** The append a line starts with is none of these. */
  predicate StartsApart(l: Line, glued: set<nat>)
  {
    l != [] && l[0].tag.Attempt? ==> l[0].tag.i !in glued
  }

  /** No glued append has a line to itself. */
  ghost predicate Apart(v: View, glued: set<nat>)
  {
    forall a | 0 <= a < |LinesOf(v)| :: StartsApart(LinesOf(v)[a], glued)
  }

  /* ---- one line ---- */

  lemma TextStep(l: Line)
    requires l != []
    ensures LineText(l) == l[0].text + LineText(l[1..])
  {
    assert Texts(l)[1..] == Texts(l[1..]);
  }

  lemma {:induction false} TextGrows(l: Line, p: Part)
    ensures LineText(l + [p]) == LineText(l) + p.text
  {
    TextStep(l + [p]);
    if l == [] {
      assert ([] + [p])[1..] == [];
    } else {
      assert (l + [p])[1..] == l[1..] + [p];
      TextGrows(l[1..], p);
      TextStep(l);
    }
  }

  /** The parts of a line's first k bytes. */
  function Cut(l: Line, k: nat): Line
  {
    if l == [] || k == 0 then []
    else if k <= |l[0].text| then [l[0].(text := l[0].text[..k])]
    else [l[0]] + Cut(l[1..], k - |l[0].text|)
  }

  lemma {:induction false} CutText(l: Line, k: nat)
    requires k <= |LineText(l)|
    ensures LineText(Cut(l, k)) == LineText(l)[..k]
  {
    hide LineText;
    if k == 0 || l == [] {
      EmptyText();
    } else {
      TextStep(l);
      var c := Cut(l, k);
      TextStep(c);
      if k <= |l[0].text| {
        assert c[1..] == [];
        EmptyText();
      } else {
        CutText(l[1..], k - |l[0].text|);
        assert c[1..] == Cut(l[1..], k - |l[0].text|);
      }
    }
  }

  lemma EmptyText()
    ensures LineText([]) == ""
  {
  }

  lemma {:induction false} CutKeeps(l: Line, k: nat, att: seq<Record>)
    requires LineOk(l, att)
    ensures LineOk(Cut(l, k), att) && |Cut(l, k)| <= |l|
    ensures forall a | 0 <= a < |Cut(l, k)| :: Cut(l, k)[a].tag == l[a].tag
  {
    hide ToManifestLine;
    if l != [] && k != 0 {
      assert PartOk(l[0], att);
      if k > |l[0].text| { CutKeeps(l[1..], k - |l[0].text|, att); }
    }
  }

  lemma {:induction false} CutTwice(l: Line, k: nat, s: nat)
    requires s <= k
    ensures Cut(Cut(l, k), s) == Cut(l, s)
  {
    if l != [] && s != 0 {
      if k <= |l[0].text| {
        assert l[0].text[..k][..s] == l[0].text[..s];
      } else {
        var rest := Cut(l[1..], k - |l[0].text|);
        assert ([l[0]] + rest)[1..] == rest;
        if s > |l[0].text| { CutTwice(l[1..], k - |l[0].text|, s - |l[0].text|); }
      }
    }
  }

  lemma {:induction false} CutNothing(l: Line, att: seq<Record>)
    requires LineOk(l, att)
    ensures Cut(l, |LineText(l)|) == l
  {
    hide ToManifestLine, LineText;
    if l == [] {
      EmptyText();
    } else {
      assert PartOk(l[0], att);
      TextStep(l);
      CutNothing(l[1..], att);
      if LineText(l[1..]) == "" {
        NoText(l[1..], att);
        assert l[0].text[..|l[0].text|] == l[0].text;
      }
    }
  }

  /** Only a line without parts is blank. */
  lemma NoText(l: Line, att: seq<Record>)
    requires LineOk(l, att)
    ensures LineText(l) == "" <==> l == []
  {
    hide ToManifestLine;
    if l != [] { assert PartOk(l[0], att); }
  }

  lemma {:induction false} CutBeforePart(l: Line, p: Part, k: nat)
    requires k <= |LineText(l)|
    ensures Cut(l + [p], k) == Cut(l, k)
  {
    hide LineText;
    if l == [] {
      EmptyText();
    } else if k > |l[0].text| {
      TextStep(l);
      assert (l + [p])[1..] == l[1..] + [p];
      CutBeforePart(l[1..], p, k - |l[0].text|);
    }
  }

  /* ---- losing a suffix ---- */

  /** The view of the first k bytes. */
  function Truncate(v: View, k: nat): View
    requires k <= |LogOf(v)|
    decreases |v.done|
  {
    var base := |Unlines(v.done)|;
    if k >= base then v.(open := Cut(v.open, k - base))
    else Truncate(View(v.done[..|v.done| - 1], v.done[|v.done| - 1]), k)
  }

  lemma {:induction false} TruncateLog(v: View, k: nat)
    requires k <= |LogOf(v)|
    ensures LogOf(Truncate(v, k)) == LogOf(v)[..k]
    decreases |v.done|
  {
    hide LineText;
    if k < |Unlines(v.done)| {
      var w := View(v.done[..|v.done| - 1], v.done[|v.done| - 1]);
      TruncateLog(w, k);
      assert LogOf(v) == LogOf(w) + "\n" + LineText(v.open);
    } else {
      CutText(v.open, k - |Unlines(v.done)|);
    }
  }

  lemma {:induction false} TruncateWf(v: View, k: nat, att: seq<Record>, glued: set<nat>)
    requires k <= |LogOf(v)| && Wf(v, att) && Apart(v, glued)
    ensures Wf(Truncate(v, k), att) && Apart(Truncate(v, k), glued)
    decreases |v.done|
  {
    hide LineText, LineOk;
    var base := |Unlines(v.done)|;
    if k < base {
      var w := View(v.done[..|v.done| - 1], v.done[|v.done| - 1]);
      assert LinesOf(w) == v.done;
      assert forall a | 0 <= a < |LinesOf(w)| :: LinesOf(w)[a] == LinesOf(v)[a];
      TruncateWf(w, k, att, glued);
    } else {
      var cut := Truncate(v, k);
      assert forall a | 0 <= a < |v.done| :: LinesOf(cut)[a] == LinesOf(v)[a];
      assert LinesOf(cut)[|v.done|] == cut.open && LinesOf(v)[|v.done|] == v.open;
      CutKeeps(v.open, k - base, att);
      assert forall a | 0 <= a < |v.done| :: Before(LinesOf(v)[a], v.open);
    }
  }

  lemma {:induction false} TruncateTwice(v: View, k: nat, s: nat)
    requires s <= k <= |LogOf(v)|
    ensures s <= |LogOf(Truncate(v, k))|
    ensures Truncate(Truncate(v, k), s) == Truncate(v, s)
    decreases |v.done|
  {
    hide LineText;
    TruncateLog(v, k);
    var base := |Unlines(v.done)|;
    if k < base {
      TruncateTwice(View(v.done[..|v.done| - 1], v.done[|v.done| - 1]), k, s);
    } else if s >= base {
      CutTwice(v.open, k - base, s - base);
    }
  }

  lemma TruncateNothing(v: View, att: seq<Record>)
    requires Wf(v, att)
    ensures Truncate(v, |LogOf(v)|) == v
  {
    hide LineOk, LineText;
    assert v.open == LinesOf(v)[|v.done|];
    CutNothing(v.open, att);
  }

  /* ---- growing ---- */

  /** A newline ends the open line. */
  function EndLine(v: View): View { View(v.done + [v.open], []) }

  lemma EndLineKeeps(v: View, s: nat, att: seq<Record>, glued: set<nat>)
    requires s <= |LogOf(v)| && Wf(v, att) && Apart(v, glued)
    ensures LogOf(EndLine(v)) == LogOf(v) + "\n"
    ensures Truncate(EndLine(v), s) == Truncate(v, s)
    ensures Wf(EndLine(v), att) && Apart(EndLine(v), glued)
  {
    hide LineText, PartOk;
    EmptyText();
    var e := EndLine(v);
    assert e.done[..|e.done| - 1] == v.done && e.done[|e.done| - 1] == v.open;
    assert View(v.done, v.open) == v;
    assert LinesOf(e) == LinesOf(v) + [[]];
  }

  /** Later text joins the open line, or starts one where none is open. */
  lemma GrowLineKeeps(v: View, p: Part, s: nat, att: seq<Record>, glued: set<nat>)
    requires s <= |LogOf(v)| && Wf(v, att) && Apart(v, glued) && PartOk(p, att)
    requires p.tag.Attempt? ==> TagsBelow(v, p.tag.i) && (v.open == [] ==> p.tag.i !in glued)
    ensures LogOf(v.(open := v.open + [p])) == LogOf(v) + p.text
    ensures Truncate(v.(open := v.open + [p]), s) == Truncate(v, s)
    ensures Wf(v.(open := v.open + [p]), att) && Apart(v.(open := v.open + [p]), glued)
  {
    hide LineText, PartOk, Truncate;
    TextGrows(v.open, p);
    var w := v.(open := v.open + [p]);
    assert v.open == LinesOf(v)[|v.done|] && w.open == LinesOf(w)[|v.done|];
    assert forall a | 0 <= a < |v.done| :: LinesOf(w)[a] == LinesOf(v)[a];
    assert forall a | 0 <= a < |v.done| :: Before(LinesOf(v)[a], v.open);
    TruncateGrown(v, p, s);
  }

  lemma TruncateGrown(v: View, p: Part, s: nat)
    requires s <= |LogOf(v)| && |LogOf(v)| <= |LogOf(v.(open := v.open + [p]))|
    ensures Truncate(v.(open := v.open + [p]), s) == Truncate(v, s)
  {
    hide LineText;
    if s >= |Unlines(v.done)| { CutBeforePart(v.open, p, s - |Unlines(v.done)|); }
  }

  /** Every append in the history came before the i-th. */
  ghost predicate TagsBelow(v: View, i: nat)
  {
    forall a, b | 0 <= a < |LinesOf(v)| && 0 <= b < |LinesOf(v)[a]| && LinesOf(v)[a][b].tag.Attempt? ::
      LinesOf(v)[a][b].tag.i < i
  }

  lemma TagsBelowAttempts(v: View, att: seq<Record>)
    requires Wf(v, att)
    ensures TagsBelow(v, |att|)
  {
    hide ToManifestLine;
    forall a, b | 0 <= a < |LinesOf(v)| && 0 <= b < |LinesOf(v)[a]| && LinesOf(v)[a][b].tag.Attempt?
      ensures LinesOf(v)[a][b].tag.i < |att|
    {
      assert LineOk(LinesOf(v)[a], att) && PartOk(LinesOf(v)[a][b], att);
    }
  }

  /** Attempts made later leave the history of the earlier ones as it was. */
  lemma MoreAttempts(v: View, att: seq<Record>, r: Record)
    requires Wf(v, att)
    ensures Wf(v, att + [r])
  {
    hide ToManifestLine;
    forall a | 0 <= a < |LinesOf(v)| ensures LineOk(LinesOf(v)[a], att + [r]) {
      var l := LinesOf(v)[a];
      assert LineOk(l, att);
      assert forall b | 0 <= b < |l| :: PartOk(l[b], att) && PartOk(l[b], att + [r]);
    }
  }

  /* ---- what a reader gets ---- */

  predicate Readable(r: Record) { r.op != OPEN && !Nameless(r) }

  /** A line holds one append's text and nothing else, and all of it. */
  predicate Shows(l: Line, att: seq<Record>)
  {
    |l| == 1 && l[0].tag.Attempt? && l[0].tag.i < |att| && l[0].text == ToManifestLine(att[l[0].tag.i]) &&
    Readable(att[l[0].tag.i])
  }

  /** The attempts a reader sees, in the order of their lines. */
  function Shown(done: seq<Line>, att: seq<Record>): seq<nat>
  {
    if done == [] then []
    else
      var l := done[|done| - 1];
      Shown(done[..|done| - 1], att) + (if Shows(l, att) then [l[0].tag.i] else [])
  }

  function RecordsOfAttempts(ids: seq<nat>, att: seq<Record>): seq<Record>
    requires forall a | 0 <= a < |ids| :: ids[a] < |att|
  {
    seq(|ids|, a requires 0 <= a < |ids| => Canonical(att[ids[a]]))
  }

  ghost predicate StrictlyIncreasing(ids: seq<nat>)
  {
    forall a, b | 0 <= a < b < |ids| :: ids[a] < ids[b]
  }

  /** A line of the log starts with attempt i. */
  predicate Leads(done: seq<Line>, i: nat)
  {
    exists a :: 0 <= a < |done| && done[a] != [] && done[a][0].tag == Attempt(i)
  }

  lemma LeadsMore(done: seq<Line>, i: nat)
    requires done != [] && Leads(done[..|done| - 1], i)
    ensures Leads(done, i)
  {
    var a :| 0 <= a < |done| - 1 && done[..|done| - 1][a] != [] && done[..|done| - 1][a][0].tag == Attempt(i);
    assert done[a][0].tag == Attempt(i);
  }

  lemma LeadsBelow(done: seq<Line>, i: nat)
    requires Ordered(done) && done != [] && Leads(done[..|done| - 1], i)
    ensures var l := done[|done| - 1]; l != [] && l[0].tag.Attempt? ==> i < l[0].tag.i
  {
    var n := |done| - 1;
    var a :| 0 <= a < n && done[..n][a] != [] && done[..n][a][0].tag == Attempt(i);
    assert Before(done[a], done[n]);
  }

  lemma {:induction false} ShownFacts(done: seq<Line>, att: seq<Record>)
    requires Ordered(done)
    ensures forall a | 0 <= a < |Shown(done, att)| :: Shown(done, att)[a] < |att| && Readable(att[Shown(done, att)[a]])
    ensures StrictlyIncreasing(Shown(done, att))
    ensures forall i | i in Shown(done, att) :: Leads(done, i)
  {
    hide ToManifestLine, Leads, Before;
    if done != [] {
      var n := |done| - 1;
      ShownFacts(done[..n], att);
      var before := Shown(done[..n], att);
      forall i | i in before ensures Leads(done, i) && (Shows(done[n], att) ==> i < done[n][0].tag.i) {
        LeadsMore(done, i);
        LeadsBelow(done, i);
      }
      if Shows(done[n], att) { LastLeads(done); }
      assert forall a | 0 <= a < |before| :: before[a] in before;
    }
  }

  lemma LastLeads(done: seq<Line>)
    requires done != [] && done[|done| - 1] != [] && done[|done| - 1][0].tag.Attempt?
    ensures Leads(done, done[|done| - 1][0].tag.i)
  {
  }

  lemma {:induction false} WholeIsShown(done: seq<Line>, i: nat, att: seq<Record>)
    requires i < |att| && Whole(i, att) in done && Readable(att[i])
    ensures i in Shown(done, att)
  {
    hide ToManifestLine;
    var l := done[|done| - 1];
    if l != Whole(i, att) {
      assert done == done[..|done| - 1] + [l];
      WholeIsShown(done[..|done| - 1], i, att);
    }
  }

  lemma PartIsOneLine(p: Part, att: seq<Record>)
    requires PartOk(p, att)
    ensures '\n' !in p.text && StartsALine(p.text)
  {
    hide ToManifestLine;
    match p.tag {
      case Header(h) => LineIsOneLine(h);
      case Attempt(i) => LineIsOneLine(att[i]);
    }
  }

  lemma {:induction false} LineHasNoNewline(l: Line, att: seq<Record>)
    requires LineOk(l, att)
    ensures '\n' !in LineText(l)
  {
    hide LineText, PartOk;
    if l == [] {
      EmptyText();
    } else {
      PartIsOneLine(l[0], att);
      TextStep(l);
      LineHasNoNewline(l[1..], att);
    }
  }

  /** A finished line is read as its append's record, or as nothing. */
  lemma RecordsOfLineExactly(l: Line, att: seq<Record>)
    requires LineOk(l, att)
    requires forall i | 0 <= i < |att| :: AppendAccepts(att[i])
    ensures RecordsOfLine(LineText(l)) == if Shows(l, att) then [Canonical(att[l[0].tag.i])] else []
  {
    hide ToManifestLine, ParseManifestLine, Canonical;
    if l == [] {
      EmptyLine();
    } else if |l| == 1 {
      var p := l[0];
      assert PartOk(p, att);
      assert LineText(l) == p.text + "" == p.text by { TextStep(l); EmptyText(); }
      PrefixOfLine(if p.tag.Header? then p.tag.record else att[p.tag.i], p.text);
      OpKept(if p.tag.Header? then p.tag.record else att[p.tag.i]);
    } else {
      forall a | 0 <= a < |l| ensures StartsALine(Texts(l)[a]) { PartIsOneLine(l[a], att); }
      TornThenGluedIsUnreadable(Texts(l));
    }
  }

  lemma OpKept(r: Record)
    ensures Canonical(r).op == r.op
  {
  }

  lemma PrefixOfLine(r: Record, text: string)
    requires text <= ToManifestLine(r)
    ensures ParseManifestLine(text) ==
            if text == ToManifestLine(r) && NumbersFit(r) && !Nameless(r) then Some(Canonical(r)) else None
  {
    hide ToManifestLine, ParseManifestLine;
    if text == ToManifestLine(r) {
      ParseOfLine(r);
    } else {
      assert text == ToManifestLine(r)[..|text|];
      CutLineIsUnreadable(r, |text|);
    }
  }

  lemma EmptyLine()
    ensures ParseManifestLine("").None?
  {
  }

  lemma {:induction false} UnlinesEnds(done: seq<Line>)
    ensures EndsLine(Unlines(done))
  {
  }

  lemma OneMoreRecord(ids: seq<nat>, i: nat, att: seq<Record>)
    requires i < |att| && forall a | 0 <= a < |ids| :: ids[a] < |att|
    ensures RecordsOfAttempts(ids, att) + [Canonical(att[i])] == RecordsOfAttempts(ids + [i], att)
  {
    hide Canonical;
  }

  /** Reading the bytes yields exactly the shown attempts' records. */
  lemma {:induction false} RecordsOfUnlines(done: seq<Line>, att: seq<Record>)
    requires forall a | 0 <= a < |done| :: LineOk(done[a], att)
    requires forall i | 0 <= i < |att| :: AppendAccepts(att[i])
    requires Ordered(done)
    ensures forall a | 0 <= a < |Shown(done, att)| :: Shown(done, att)[a] < |att|
    ensures Records(Unlines(done)) == RecordsOfAttempts(Shown(done, att), att)
  {
    hide ToManifestLine, RecordsOfLine, Records, LineOk, LineText, Canonical;
    ShownFacts(done, att);
    if done == [] {
      NoRecords();
    } else {
      var n := |done| - 1;
      var l := done[n];
      RecordsOfUnlines(done[..n], att);
      LineHasNoNewline(l, att);
      UnlinesEnds(done[..n]);
      RecordsConcat(Unlines(done[..n]), LineText(l) + "\n");
      OneLine(LineText(l));
      RecordsOfLineExactly(l, att);
      if Shows(l, att) { OneMoreRecord(Shown(done[..n], att), l[0].tag.i, att); }
    }
  }

  lemma RecordsOfLog(v: View, att: seq<Record>)
    requires Wf(v, att)
    requires forall i | 0 <= i < |att| :: AppendAccepts(att[i])
    ensures forall a | 0 <= a < |Shown(v.done, att)| :: Shown(v.done, att)[a] < |att|
    ensures Records(LogOf(v)) == RecordsOfAttempts(Shown(v.done, att), att)
  {
    hide Records, Shown, LineOk, LineText;
    assert forall a | 0 <= a < |v.done| :: v.done[a] == LinesOf(v)[a];
    assert v.open == LinesOf(v)[|v.done|];
    RecordsOfUnlines(v.done, att);
    UnlinesEnds(v.done);
    LineHasNoNewline(v.open, att);
    RecordsIgnoreTail(Unlines(v.done), LineText(v.open));
  }
}
