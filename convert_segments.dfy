/**
 * The segment content scheme: the title becomes `header-0`; the text under
 * the title and every section body are cut at each `[segment]` marker, and
 * every piece that is not blank becomes the next `segment-c` of one shared
 * counter; a section heading takes the counter's current value without
 * advancing it. The literal then lists, for i = 0 .. the largest index,
 * `header-i` before `segment-i`, with no comma after the last segment.
 */
module ConvertSegments {
  import opened Strings
  import opened PyRegex

  const Marker: string := "[segment]"
  const Prefix: string := "export const sceneContent = {\n"
  const Suffix: string := "\n};"

  /** The keys of the `output` dict of the segment scheme. */
  datatype Key = Header(n: nat) | Segment(n: nat)

  function KeyName(k: Key): string
  {
    (if k.Header? then "header-" else "segment-") + NatStr(k.n)
  }

  /** `int(x.split('-')[1])` on a key, or None where Python would raise. */
  function KeyIndex(name: string): Option<nat>
  {
    var parts := Split(name, "-");
    if |parts| < 2 then None else ParseNat(parts[1])
  }

  /** A digit string contains no dash. */
  lemma DigitsDashFree(d: string)
    requires forall i :: 0 <= i < |d| ==> IsDigit(d[i])
    ensures IndexOf(d, "-", 0) == |d|
  {
    var j := IndexOf(d, "-", 0);
    if j < |d| {
      StartsAtFirst(d, j, "-");
    }
  }

  /** Reading the index back out of a key, as line 44 does, gives the key's number. */
  lemma KeyIndexOfName(k: Key)
    ensures KeyIndex(KeyName(k)) == Some(k.n)
  {
    var p: string := if k.Header? then "header-" else "segment-";
    var d := NatStr(k.n);
    var name := KeyName(k);
    assert name == p + d;
    var q := |p| - 1;
    forall i | 0 <= i < q ensures !StartsAt(name, i, "-") {
      StartsAtFirst(name, i, "-");
      assert name[i] == p[i];
    }
    assert name[q] == p[q] == '-';
    assert name[q..q + 1] == "-";
    assert StartsAt(name, q, "-");
    var j := IndexOf(name, "-", 0);
    assert j <= q;
    assert name[q + 1..] == d;
    DigitsDashFree(d);
    assert Split(d, "-") == [d];
    assert Split(name, "-") == [name[..q]] + Split(d, "-");
    ParseNatStr(k.n);
  }

  /** Different keys are spelled differently. */
  lemma KeyNameInjective(k: Key, k': Key)
    ensures KeyName(k) == KeyName(k') ==> k == k'
  {
    if KeyName(k) == KeyName(k') {
      KeyIndexOfName(k);
      KeyIndexOfName(k');
      assert KeyName(k)[0] == (if k.Header? then 'h' else 's');
      assert KeyName(k')[0] == (if k'.Header? then 'h' else 's');
    }
  }

  // ----- document order: the units the script stores (lines 12-38) -----

  /** A stripped heading or a stripped, non-blank segment, in the order the script stores them. */
  datatype Unit = HeaderUnit(text: string) | SegmentUnit(text: string)

  /** Lines 35-38 (and 21-24): one segment unit per piece whose strip is not empty. */
  function PieceUnits(parts: seq<string>): seq<Unit>
  {
    if parts == [] then []
    else
      var piece := Trim(Python, parts[|parts| - 1]);
      PieceUnits(parts[..|parts| - 1]) + (if piece != [] then [SegmentUnit(piece)] else [])
  }

  /** The units of a body: its `[segment]` pieces that are not blank. */
  function BodyUnits(body: string): seq<Unit>
  {
    PieceUnits(Split(body, Marker))
  }

  /** Lines 30-38: per section, its heading, then the pieces of its body. */
  function SectionUnits(secs: seq<(string, string)>): seq<Unit>
  {
    if secs == [] then []
    else
      var n := |secs|;
      SectionUnits(secs[..n - 1]) + [HeaderUnit(Trim(Python, secs[n - 1].0))] + BodyUnits(secs[n - 1].1)
  }

  /** Every unit of the document, in the order the script stores them. */
  function Units(m: Matches): seq<Unit>
  {
    TitleUnits(m) + SectionUnits(m.sections)
  }

  /** Lines 12-24: the title as `header-0`, then the pieces of the text under it. */
  function TitleUnits(m: Matches): seq<Unit>
  {
    (if m.title.Some? then [HeaderUnit(Trim(Python, m.title.value))] else [])
    + (if m.titleBody.Some? then BodyUnits(m.titleBody.value) else [])
  }

  // ----- the dict and its counter -----

  datatype State = State(output: map<Key, string>, counter: nat)

  const Start: State := State(map[], 0)

  /** Storing one unit: a heading at the counter's value, a segment at it and then one further. */
  function Step(st: State, u: Unit): State
  {
    match u
    case HeaderUnit(t) => State(st.output[Header(st.counter) := t], st.counter)
    case SegmentUnit(t) => State(st.output[Segment(st.counter) := t], st.counter + 1)
  }

  function Run(st: State, us: seq<Unit>): State
  {
    if us == [] then st else Step(Run(st, us[..|us| - 1]), us[|us| - 1])
  }

  lemma {:induction false} RunAppend(st: State, a: seq<Unit>, b: seq<Unit>)
    ensures Run(st, a + b) == Run(Run(st, a), b)
    decreases |b|
  {
    if b == [] {
      assert a + b == a;
    } else {
      RunAppend(st, a, b[..|b| - 1]);
      assert (a + b)[..|a + b| - 1] == a + b[..|b| - 1];
    }
  }

  /**
   * One more piece of a body (lines 21-24, 35-38): a piece that is blank
   * after stripping changes nothing and takes no number; any other piece is
   * stored, stripped, under the counter's value, and the counter advances.
   */
  lemma PieceStep(st: State, parts: seq<string>, piece: string)
    ensures var before := Run(st, PieceUnits(parts));
      Run(st, PieceUnits(parts + [piece])) ==
        if Trim(Python, piece) == [] then before
        else State(before.output[Segment(before.counter) := Trim(Python, piece)], before.counter + 1)
  {
    assert (parts + [piece])[..|parts|] == parts;
    var u := if Trim(Python, piece) != [] then [SegmentUnit(Trim(Python, piece))] else [];
    RunAppend(st, PieceUnits(parts), u);
    if u != [] {
      assert u[..0] == [];
    }
  }

  /** The texts of the segment units, in order. */
  function SegmentTexts(us: seq<Unit>): seq<string>
  {
    if us == [] then []
    else SegmentTexts(us[..|us| - 1]) + (if us[|us| - 1].SegmentUnit? then [us[|us| - 1].text] else [])
  }

  /** The last heading read while exactly `i` segments had been stored before it. */
  function HeadingAt(us: seq<Unit>, i: nat): Option<string>
  {
    if us == [] then None
    else if us[|us| - 1].HeaderUnit? && |SegmentTexts(us[..|us| - 1])| == i then Some(us[|us| - 1].text)
    else HeadingAt(us[..|us| - 1], i)
  }

  /**
   * After storing `us`, the counter is the number of segments; `segment-k`
   * holds the k-th segment for every k below it and nothing else; `header-i`
   * holds the last heading read while i segments had been stored.
   */
  lemma {:induction false} RunAt(us: seq<Unit>, k: Key)
    ensures Run(Start, us).counter == |SegmentTexts(us)|
    ensures k.Segment? ==> (k in Run(Start, us).output <==> k.n < |SegmentTexts(us)|)
    ensures k.Segment? && k in Run(Start, us).output ==> Run(Start, us).output[k] == SegmentTexts(us)[k.n]
    ensures k.Header? ==> (k in Run(Start, us).output <==> HeadingAt(us, k.n).Some?)
    ensures k.Header? && k in Run(Start, us).output ==> Run(Start, us).output[k] == HeadingAt(us, k.n).value
  {
    if us != [] {
      var init := us[..|us| - 1];
      RunAt(init, k);
      if k.Segment? && k.n < |SegmentTexts(init)| {
        assert SegmentTexts(us)[k.n] == SegmentTexts(init)[k.n];
      }
    }
  }

  /** No heading is stored beyond the counter. */
  lemma {:induction false} HeadingAtMost(us: seq<Unit>, i: nat)
    ensures HeadingAt(us, i).Some? ==> i <= |SegmentTexts(us)|
  {
    if us != [] {
      HeadingAtMost(us[..|us| - 1], i);
    }
  }

  /** A heading whose section stores no segment is replaced by the next heading. */
  lemma HeadingWithoutSegmentsIsReplaced(us: seq<Unit>, t1: string, t2: string)
    ensures var c := |SegmentTexts(us)|;
      HeadingAt(us + [HeaderUnit(t1), HeaderUnit(t2)], c) == Some(t2)
  {
    var u := us + [HeaderUnit(t1), HeaderUnit(t2)];
    assert u[..|u| - 1] == us + [HeaderUnit(t1)];
    assert (us + [HeaderUnit(t1)])[..|us|] == us;
  }

  /**
   * A heading shares its number with the first segment stored after it:
   * after any prefix of units, a heading followed by a segment puts both
   * under the counter's value.
   */
  lemma HeadingSharesNumberWithNextSegment(us: seq<Unit>, h: string, x: string)
    ensures var c := |SegmentTexts(us)|;
      var out := Run(Start, us + [HeaderUnit(h), SegmentUnit(x)]).output;
      Header(c) in out && out[Header(c)] == h && Segment(c) in out && out[Segment(c)] == x
  {
    var c := |SegmentTexts(us)|;
    var uh := us + [HeaderUnit(h)];
    var u := us + [HeaderUnit(h), SegmentUnit(x)];
    assert u[..|u| - 1] == uh;
    assert uh[..|us|] == us;
    assert SegmentTexts(uh) == SegmentTexts(us);
    assert SegmentTexts(u) == SegmentTexts(us) + [x];
    assert HeadingAt(uh, c) == Some(h);
    assert HeadingAt(u, c) == Some(h);
    RunAt(u, Header(c));
    RunAt(u, Segment(c));
  }

  /** The key numbers in use. */
  function Indices(d: map<Key, string>): set<nat>
  {
    set k | k in d.Keys :: k.n
  }

  /** The largest element of a non-empty set: Python's `max`. */
  ghost function MaxIn(s: set<nat>): (m: nat)
    requires s != {}
    ensures m in s && forall x :: x in s ==> x <= m
    decreases |s|
  {
    var x :| x in s;
    if s == {x} then
      assert forall y :: y in s ==> y == x;
      x
    else
      assert s - {x} != {} by {
        var y :| y in s && y != x;
        assert y in s - {x};
      }
      var r := MaxIn(s - {x});
      assert forall y :: y in s ==> y == x || y in s - {x};
      if x < r then r else x
  }

  /** The largest key index of a non-empty dict. */
  ghost function MaxIndex(d: map<Key, string>): (top: nat)
    requires d != map[]
    ensures top in Indices(d) && forall k :: k in d ==> k.n <= top
  {
    var k :| k in d;
    assert k.n in Indices(d);
    assert forall k' :: k' in d ==> k'.n in Indices(d);
    MaxIn(Indices(d))
  }

  /**
   * Density: the indices 0 .. max of the dict all carry a header or a
   * segment, and the largest index is the counter, or one below it when the
   * last heading stored a segment.
   */
  lemma Dense(us: seq<Unit>, i: nat)
    requires Run(Start, us).output != map[]
    requires i <= MaxIndex(Run(Start, us).output)
    ensures Header(i) in Run(Start, us).output || Segment(i) in Run(Start, us).output
  {
    var d := Run(Start, us).output;
    var c := |SegmentTexts(us)|;
    var top := MaxIndex(d);
    var kt :| kt in d && kt.n == top;
    RunAt(us, kt);
    RunAt(us, Segment(i));
    RunAt(us, Header(i));
    if kt.Header? {
      HeadingAtMost(us, kt.n);
    }
    if i == c && c == top {
      assert kt.Header?;
    }
  }

  /** The dict is empty exactly when the document yields no unit (then `max` raises). */
  lemma RunEmpty(us: seq<Unit>)
    ensures Run(Start, us).output == map[] <==> us == []
  {
    if us != [] {
      var last := us[|us| - 1];
      var before := Run(Start, us[..|us| - 1]);
      var key := if last.HeaderUnit? then Header(before.counter) else Segment(before.counter);
      assert key in Run(Start, us).output;
    }
  }

  // ----- the emitted text (lines 40-55) -----

  /** One line of the literal; a segment line ends with `,\n\n` unless its index is the largest. */
  datatype Line = HeaderLine(i: nat, text: string) | SegmentLine(i: nat, text: string, comma: bool)

  function LineKey(l: Line): Key
  {
    match l
    case HeaderLine(i, _) => Header(i)
    case SegmentLine(i, _, _) => Segment(i)
  }

  /** Line 49: `    "header-i": "value",` and a newline. */
  function HeaderText(i: nat, v: string): string
  {
    "    \"" + KeyName(Header(i)) + "\": \"" + v + "\",\n"
  }

  /** Line 51: `    "segment-i": `value`` with backslashes doubled. */
  function SegmentText(i: nat, v: string): string
  {
    "    \"" + KeyName(Segment(i)) + "\": `" + Escape(v) + "`"
  }

  const Comma: string := ",\n\n"

  function LineText(l: Line): string
  {
    match l
    case HeaderLine(i, t) => HeaderText(i, t)
    case SegmentLine(i, t, comma) => SegmentText(i, t) + (if comma then Comma else [])
  }

  function LinesText(ls: seq<Line>): string
  {
    if ls == [] then [] else LinesText(ls[..|ls| - 1]) + LineText(ls[|ls| - 1])
  }

  lemma Assoc(x: string, y: string, z: string)
    ensures (x + y) + z == x + (y + z)
  {
  }

  lemma LinesTextSnoc(ls: seq<Line>, l: Line)
    ensures LinesText(ls + [l]) == LinesText(ls) + LineText(l)
  {
    assert (ls + [l])[..|ls|] == ls;
  }

  /** The text of two runs of lines is the text of the first followed by that of the second. */
  lemma {:induction false} LinesTextAppend(a: seq<Line>, b: seq<Line>)
    ensures LinesText(a + b) == LinesText(a) + LinesText(b)
    decreases |b|
  {
    if b == [] {
      assert a + b == a;
    } else {
      var init, last := b[..|b| - 1], b[|b| - 1];
      assert b == init + [last];
      assert a + b == (a + init) + [last];
      LinesTextAppend(a, init);
      LinesTextSnoc(a + init, last);
      LinesTextSnoc(init, last);
      Assoc(LinesText(a), LinesText(init), LineText(last));
    }
  }

  /** Lines 45-53 for one index `i`. */
  function LinesAt(d: map<Key, string>, top: nat, i: nat): seq<Line>
  {
    (if Header(i) in d then [HeaderLine(i, d[Header(i)])] else [])
    + (if Segment(i) in d then [SegmentLine(i, d[Segment(i)], i < top)] else [])
  }

  /** The lines for the indices below `k`. */
  function Lines(d: map<Key, string>, top: nat, k: nat): seq<Line>
  {
    if k == 0 then [] else Lines(d, top, k - 1) + LinesAt(d, top, k - 1)
  }

  /** The literal's text, or None when the dict is empty and `max` raises `ValueError`. */
  ghost function SegmentsJs(d: map<Key, string>): Option<string>
  {
    if d == map[] then None
    else
      Some(Prefix + LinesText(LiteralLines(d)) + Suffix)
  }

  /** The lines of the literal: every index from 0 to the largest. */
  ghost function LiteralLines(d: map<Key, string>): seq<Line>
    requires d != map[]
  {
    Lines(d, MaxIndex(d), MaxIndex(d) + 1)
  }

  /** Where a key sorts in the literal: by index, a header before the segment of the same index. */
  function Rank(k: Key): nat
  {
    2 * k.n + (if k.Segment? then 1 else 0)
  }

  /** Every line is a dict entry with an index below `k`; a segment line has its comma exactly when its index is below `top`. */
  lemma {:induction false} LineAt(d: map<Key, string>, top: nat, k: nat, j: nat)
    requires j < |Lines(d, top, k)|
    ensures var l := Lines(d, top, k)[j];
      LineKey(l) in d && l.text == d[LineKey(l)] && LineKey(l).n < k
      && (l.SegmentLine? ==> (l.comma <==> l.i < top))
  {
    var prev := Lines(d, top, k - 1);
    if j < |prev| {
      LineAt(d, top, k - 1, j);
      assert Lines(d, top, k)[j] == prev[j];
    } else {
      assert Lines(d, top, k)[j] == LinesAt(d, top, k - 1)[j - |prev|];
    }
  }

  /** The lines are sorted by rank, so no key is written twice. */
  lemma {:induction false} LinesSorted(d: map<Key, string>, top: nat, k: nat, j: nat, j': nat)
    requires j < j' < |Lines(d, top, k)|
    ensures Rank(LineKey(Lines(d, top, k)[j])) < Rank(LineKey(Lines(d, top, k)[j']))
  {
    var prev := Lines(d, top, k - 1);
    var ls := Lines(d, top, k);
    if j' < |prev| {
      LinesSorted(d, top, k - 1, j, j');
      assert ls[j] == prev[j] && ls[j'] == prev[j'];
    } else {
      assert ls[j'] == LinesAt(d, top, k - 1)[j' - |prev|];
      if j < |prev| {
        LineAt(d, top, k - 1, j);
        assert ls[j] == prev[j];
      } else {
        assert ls[j] == LinesAt(d, top, k - 1)[j - |prev|];
      }
    }
  }

  /** Every dict entry with an index below `k` is written. */
  lemma {:induction false} LinesComplete(d: map<Key, string>, top: nat, k: nat, key: Key)
    requires key in d && key.n < k
    ensures exists j :: 0 <= j < |Lines(d, top, k)| && LineKey(Lines(d, top, k)[j]) == key
  {
    var prev := Lines(d, top, k - 1);
    var ls := Lines(d, top, k);
    if key.n < k - 1 {
      LinesComplete(d, top, k - 1, key);
      var j :| 0 <= j < |prev| && LineKey(prev[j]) == key;
      assert ls[j] == prev[j];
    } else {
      var at := LinesAt(d, top, k - 1);
      var j := if key.Header? || Header(key.n) !in d then 0 else 1;
      assert ls[|prev| + j] == at[j];
    }
  }

  /** What one turn of the loop of lines 44-53 appends. */
  function StepText(d: map<Key, string>, top: nat, i: nat): string
  {
    (if Header(i) in d then HeaderText(i, d[Header(i)]) else [])
    + (if Segment(i) in d then SegmentText(i, d[Segment(i)]) + (if i < top then Comma else []) else [])
  }

  /** The literal of a non-empty dict writes every one of its entries. */
  lemma LiteralWritesEveryEntry(d: map<Key, string>, key: Key)
    requires d != map[] && key in d
    ensures exists j :: 0 <= j < |LiteralLines(d)| && LineKey(LiteralLines(d)[j]) == key
  {
    LinesComplete(d, MaxIndex(d), MaxIndex(d) + 1, key);
    var j :| 0 <= j < |Lines(d, MaxIndex(d), MaxIndex(d) + 1)| && LineKey(Lines(d, MaxIndex(d), MaxIndex(d) + 1)[j]) == key;
    assert LineKey(LiteralLines(d)[j]) == key;
  }

  /** In the literal of a non-empty dict, only the segment with the largest index lacks the trailing `,\n\n`. */
  lemma OnlyLastSegmentUnterminated(d: map<Key, string>, j: nat)
    requires d != map[]
    requires j < |LiteralLines(d)|
    ensures var l := LiteralLines(d)[j];
      l.SegmentLine? ==> (!l.comma <==> l.i == MaxIndex(d))
  {
    LineAt(d, MaxIndex(d), MaxIndex(d) + 1, j);
  }

  /** The lines of one index spell out what one turn of the loop of lines 44-53 appends. */
  lemma LinesAtText(d: map<Key, string>, top: nat, i: nat)
    ensures LinesText(LinesAt(d, top, i)) == StepText(d, top, i)
  {
    var ls := LinesAt(d, top, i);
    var none: seq<Line> := [];
    if Header(i) in d {
      var h := HeaderLine(i, d[Header(i)]);
      LinesTextSnoc(none, h);
      assert none + [h] == [h];
      if Segment(i) in d {
        var g := SegmentLine(i, d[Segment(i)], i < top);
        LinesTextSnoc([h], g);
        assert ls == [h] + [g];
      } else {
        assert ls == [h];
      }
    } else if Segment(i) in d {
      var g := SegmentLine(i, d[Segment(i)], i < top);
      LinesTextSnoc(none, g);
      assert none + [g] == [g];
      assert ls == [g];
    }
  }

  /** One turn of the loop of lines 44-53. */
  lemma LinesStep(d: map<Key, string>, top: nat, i: nat)
    ensures LinesText(Lines(d, top, i + 1)) == LinesText(Lines(d, top, i)) + StepText(d, top, i)
  {
    assert Lines(d, top, i + 1) == Lines(d, top, i) + LinesAt(d, top, i);
    LinesTextAppend(Lines(d, top, i), LinesAt(d, top, i));
    LinesAtText(d, top, i);
  }

  // ----- the script itself -----

  /** Lines 20-24 and 34-38: storing the non-blank pieces of one body. */
  method AddSegments(st: State, body: string) returns (st': State)
    ensures st' == Run(st, BodyUnits(body))
  {
    var output := st.output;
    var counter := st.counter;
    var segments := Split(body, Marker);
    for i := 0 to |segments|
      invariant State(output, counter) == Run(st, PieceUnits(segments[..i]))
    {
      var piece := Trim(Python, segments[i]);
      assert segments[..i + 1][..i] == segments[..i];
      RunAppend(st, PieceUnits(segments[..i]), if piece != [] then [SegmentUnit(piece)] else []);
      if piece != [] {
        output := output[Segment(counter) := piece];
        counter := counter + 1;
      }
    }
    assert segments[..|segments|] == segments;
    st' := State(output, counter);
  }

  /** Lines 30-38 for one section: its heading at the counter's value, then its pieces. */
  method AddSection(st: State, header: string, body: string) returns (st': State)
    ensures st' == Run(st, [HeaderUnit(Trim(Python, header))] + BodyUnits(body))
  {
    var heading := Trim(Python, header);
    var st1 := State(st.output[Header(st.counter) := heading], st.counter);
    assert st1 == Run(st, [HeaderUnit(heading)]) by {
      assert [HeaderUnit(heading)][..0] == [];
    }
    st' := AddSegments(st1, body);
    RunAppend(st, [HeaderUnit(heading)], BodyUnits(body));
  }

  /** The units of one more section. */
  lemma SectionUnitsStep(titled: seq<Unit>, secs: seq<(string, string)>, i: nat)
    requires i < |secs|
    ensures titled + SectionUnits(secs[..i + 1])
      == (titled + SectionUnits(secs[..i])) + ([HeaderUnit(Trim(Python, secs[i].0))] + BodyUnits(secs[i].1))
  {
    assert secs[..i + 1][..i] == secs[..i];
  }

  /** Lines 12-24: the title and the text under it. */
  method AddTitle(m: Matches) returns (st: State)
    ensures st == Run(Start, TitleUnits(m))
  {
    st := Start;
    var titled: seq<Unit> := [];
    if m.title.Some? {
      st := State(st.output[Header(0) := Trim(Python, m.title.value)], st.counter);
      titled := [HeaderUnit(Trim(Python, m.title.value))];
      assert titled[..0] == [];
    }
    if m.titleBody.Some? {
      st := AddSegments(st, m.titleBody.value);
      RunAppend(Start, titled, BodyUnits(m.titleBody.value));
      titled := titled + BodyUnits(m.titleBody.value);
    }
    assert titled == TitleUnits(m);
  }

  /** Lines 9-38: the dict and the counter after the whole document. */
  method BuildOutput(m: Matches) returns (st: State)
    ensures st == Run(Start, Units(m))
  {
    st := AddTitle(m);
    ghost var titled := TitleUnits(m);
    var sections := m.sections;
    assert titled + SectionUnits(sections[..0]) == titled;
    for i := 0 to |sections|
      invariant st == Run(Start, titled + SectionUnits(sections[..i]))
    {
      SectionUnitsStep(titled, sections, i);
      RunAppend(Start, titled + SectionUnits(sections[..i]),
        [HeaderUnit(Trim(Python, sections[i].0))] + BodyUnits(sections[i].1));
      st := AddSection(st, sections[i].0, sections[i].1);
    }
    assert sections[..|sections|] == sections;
  }

  /** Line 44's `int(x.split('-')[1])` on a key of the dict. */
  function ReadIndex(k: Key): (n: nat)
    ensures n == k.n
  {
    KeyIndexOfName(k);
    KeyIndex(KeyName(k)).value
  }

  /** The largest key index of a non-empty dict, read out of the key names as line 44 does. */
  method MaxKeyIndex(d: map<Key, string>) returns (top: Option<nat>)
    ensures top.None? <==> d == map[]
    ensures top.Some? ==> top.value in Indices(d) && forall k :: k in d ==> k.n <= top.value
  {
    var keys := d.Keys;
    top := None;
    while keys != {}
      invariant keys <= d.Keys
      invariant top.None? <==> keys == d.Keys
      invariant top.Some? ==> top.value in Indices(d) && forall k :: k in d.Keys - keys ==> k.n <= top.value
      decreases |keys|
    {
      var k :| k in keys;
      var n := ReadIndex(k);
      if top.None? || top.value < n {
        top := Some(n);
      }
      keys := keys - {k};
    }
    if d != map[] {
      var k :| k in d;
    }
  }

  /** Lines 44-53: the lines for the indices 0 .. `top`. */
  method EmitLines(d: map<Key, string>, top: nat) returns (text: string)
    ensures text == LinesText(Lines(d, top, top + 1))
  {
    text := [];
    for i := 0 to top + 1
      invariant text == LinesText(Lines(d, top, i))
    {
      LinesStep(d, top, i);
      var h: string := [];
      var sg: string := [];
      if Header(i) in d {
        h := HeaderText(i, d[Header(i)]);
      }
      if Segment(i) in d {
        sg := SegmentText(i, d[Segment(i)]) + (if i < top then Comma else []);
      }
      assert h + sg == StepText(d, top, i);
      text := text + (h + sg);
    }
  }

  /** Lines 40-55: the literal for a dict, or None where `max` of no keys raises. */
  method EmitSegmentsJs(d: map<Key, string>) returns (r: Option<string>)
    ensures r == SegmentsJs(d)
  {
    var top := MaxKeyIndex(d);
    if top.None? {
      return None;
    }
    var t := top.value;
    assert t == MaxIndex(d) by {
      assert MaxIndex(d) in Indices(d);
    }
    var lines := EmitLines(d, t);
    r := Some(Prefix + lines + Suffix);
  }

  /** `convert_md_to_js` of the segment scheme without its file I/O; None where the script raises. */
  method ConvertMdToJs(content: string) returns (r: Option<string>)
    ensures r == SegmentsJs(Run(Start, Units(Match(content))).output)
    ensures r.None? <==> Units(Match(content)) == []
  {
    var m := Matches(FirstTitle(content), TitleBody(content), Sections(content));
    var st := BuildOutput(m);
    RunEmpty(Units(m));
    r := EmitSegmentsJs(st.output);
  }
}
