/**
 The line-by-line parser of `process_screenshot` (main.py): a left fold over
 the OCR text lines carrying the record built so far and the optional
 "active" column that a name with an empty value leaves open for
 continuation lines.
 */
module Parser {
  import opened Wrappers
  import opened Strings
  import opened Keys
  import opened Lookup

  /** The loop's two variables: `data` (column header to text) and `current_key`. */
  datatype State = State(data: map<string, string>, active: Option<string>)

  /** Before the first line: an empty record and no active column. */
  const Start: State := State(map[], None)

  /** The record only holds columns, and an active column always has an entry. */
  predicate Valid(st: State) {
    && (forall k :: k in st.data ==> k in Columns)
    && (st.active.Some? ==> st.active.value in st.data)
  }

  /** No stored value begins with whitespace. */
  predicate ValuesStartClean(st: State) {
    forall k :: k in st.data && st.data[k] != "" ==> !IsSpace(st.data[k][0])
  }

  /** Python truthiness of `data.get(col)`: present and non-empty. */
  predicate HasText(data: map<string, string>, col: string) {
    col in data && data[col] != ""
  }

  /** What a stripped OCR line is: `key: value` (split at the first colon,
      both sides stripped) or plain text. */
  datatype LineKind = Labelled(key: string, value: string) | Plain(text: string)

  /** Strip the line, then split it at its first colon if it has one. */
  function Classify(raw: string): (k: LineKind)
    ensures k.Plain? <==> ':' !in Strip(raw)
    ensures k.Plain? ==> k.text == Strip(raw)
    ensures k.Labelled? ==> ':' !in k.key && IsStripped(k.key) && IsStripped(k.value)
  {
    var line := Strip(raw);
    if ':' in line then
      var parts := SplitOnce(line, ':');
      var key := Strip(parts[0]);
      var value := if |parts| > 1 then Strip(parts[1]) else "";
      Labelled(key, value)
    else
      Plain(line)
  }

  /** The loop body once the line is classified. */
  function Apply(st: State, kind: LineKind): (r: State)
    ensures Valid(st) ==> Valid(r)
  {
    match kind
    case Labelled(key, value) =>
      (match MatchColumn(NormalizeKey(key))
       case Some(col) =>
         State(st.data[col := value], if value == "" then Some(col) else None)
       case None =>
         State(st.data, None))
    case Plain(line) =>
      if st.active.Some? then
        var col := st.active.value;
        if HasText(st.data, col) then
          State(st.data[col := st.data[col] + " " + line], st.active)
        else
          State(st.data[col := line], st.active)
      else
        st
  }

  /** One pass of the loop body on one OCR line. */
  function Step(st: State, raw: string): (r: State)
    ensures Valid(st) ==> Valid(r)
    ensures ValuesStartClean(st) ==> ValuesStartClean(r)
  {
    var kind := Classify(raw);
    ApplyKeepsValuesClean(st, kind);
    Apply(st, kind)
  }

  /** Stored values start with a non-blank character or are empty: labelled
      values are stripped, and continuation text is only ever appended. */
  lemma ApplyKeepsValuesClean(st: State, kind: LineKind)
    requires kind.Labelled? ==> IsStripped(kind.value)
    requires kind.Plain? ==> IsStripped(kind.text)
    ensures ValuesStartClean(st) ==> ValuesStartClean(Apply(st, kind))
  {
    if ValuesStartClean(st) && kind.Plain? && st.active.Some? {
      var col := st.active.value;
      if HasText(st.data, col) {
        var v := st.data[col] + " " + kind.text;
        assert v[0] == st.data[col][0];
      }
    }
  }

  /** The state after the given OCR lines, in order. */
  function Parse(lines: seq<string>): (r: State)
    ensures Valid(r)
    ensures ValuesStartClean(r)
  {
    if |lines| == 0 then Start
    else Step(Parse(lines[..|lines| - 1]), lines[|lines| - 1])
  }

  /** The parsing loop of `process_screenshot`; returns `data`. */
  method ParseLines(lines: seq<string>) returns (data: map<string, string>)
    ensures data == Parse(lines).data
    ensures forall k :: k in data ==> k in Columns
  {
    var st := Start;
    var i := 0;
    while i < |lines|
      invariant 0 <= i <= |lines|
      invariant st == Parse(lines[..i])
    {
      assert lines[..i + 1][..i] == lines[..i];
      st := Step(st, lines[i]);
      i := i + 1;
    }
    assert lines[..i] == lines;
    data := st.data;
  }

  // ---- One line at a time ----------------------------------------------------

  /** A line is stripped before it is classified: surrounding whitespace never
      changes what the line does. */
  lemma StepStripsFirst(st: State, raw: string)
    ensures Step(st, Strip(raw)) == Step(st, raw)
  {
    StripIdempotent(raw);
  }

  /** A labelled line whose name names column `col`: the column takes the
      stripped text after the FIRST colon (later colons stay in the value),
      replacing what it held; it becomes active exactly when that text is empty. */
  lemma StepLabelMatched(st: State, raw: string, name: string, rest: string, col: string)
    requires Strip(raw) == name + ":" + rest && ':' !in name
    requires col in Columns && NormalizeKey(Strip(name)) == NormalizeKey(col)
    ensures Step(st, raw).data == st.data[col := Strip(rest)]
    ensures Step(st, raw).active == if Strip(rest) == "" then Some(col) else None
  {
    ClassifyLabelled(raw, name, rest);
    var nk := NormalizeKey(Strip(name));
    MatchColumnSpec(nk, col);
  }

  /** A line with a colon is classified by the text around its first colon. */
  lemma ClassifyLabelled(raw: string, name: string, rest: string)
    requires Strip(raw) == name + ":" + rest && ':' !in name
    ensures Classify(raw) == Labelled(Strip(name), Strip(rest))
  {
    var line := Strip(raw);
    assert ':' in line by { assert line[|name|] == ':'; }
    SplitAtFirst(line, name, rest, SplitOnce(line, ':'));
  }

  /** A labelled line whose name names no column: the record is unchanged and
      no column is active afterwards. */
  lemma StepLabelUnmatched(st: State, raw: string, name: string, rest: string)
    requires Strip(raw) == name + ":" + rest && ':' !in name
    requires forall c :: c in Columns ==> NormalizeKey(c) != NormalizeKey(Strip(name))
    ensures Step(st, raw) == State(st.data, None)
  {
    ClassifyLabelled(raw, name, rest);
    var nk := NormalizeKey(Strip(name));
    if MatchColumn(nk).Some? {
      MatchColumnSpec(nk, MatchColumn(nk).value);
    }
  }

  /** `split(':', 1)` cuts at the first colon, whatever follows it. */
  lemma SplitAtFirst(line: string, name: string, rest: string, parts: seq<string>)
    requires line == name + ":" + rest && ':' !in name
    requires parts == SplitOnce(line, ':')
    ensures |parts| == 2 && parts[0] == name && parts[1] == rest
  {
    assert line[..|name|] == name;
    assert line[|name|] == ':';
    assert line[|name| + 1..] == rest;
    assert FindFirst(line, ':') == Some(|name|);
  }

  /** A line without a colon while a column is active continues that column:
      it is stored as the value when the value is empty (or missing) and
      appended after one space otherwise; nothing else changes. */
  lemma StepContinuation(st: State, raw: string, col: string)
    requires ':' !in Strip(raw) && st.active == Some(col)
    ensures Step(st, raw).active == Some(col)
    ensures Step(st, raw).data.Keys == st.data.Keys + {col}
    ensures forall k :: k in st.data && k != col ==> Step(st, raw).data[k] == st.data[k]
    ensures Step(st, raw).data[col] ==
              if HasText(st.data, col) then st.data[col] + " " + Strip(raw) else Strip(raw)
  {
  }

  /** A line without a colon while no column is active is ignored. */
  lemma StepIgnored(st: State, raw: string)
    requires ':' !in Strip(raw) && st.active.None?
    ensures Step(st, raw) == st
  {
  }

  /** A blank line that continues a non-empty value still adds the joining space. */
  lemma BlankContinuationAddsSpace(st: State, raw: string, col: string)
    requires Strip(raw) == "" && st.active == Some(col) && HasText(st.data, col)
    ensures Step(st, raw).data[col] == st.data[col] + " "
  {
  }

  // ---- Whole runs --------------------------------------------------------------

  /** Python's `" ".join(words)`. */
  function JoinSpaced(words: seq<string>): string {
    if |words| == 0 then ""
    else if |words| == 1 then words[0]
    else JoinSpaced(words[..|words| - 1]) + " " + words[|words| - 1]
  }

  /** The stripped text of each line. */
  function Texts(lines: seq<string>): (ts: seq<string>)
    ensures |ts| == |lines|
    ensures forall i :: 0 <= i < |lines| ==> ts[i] == Strip(lines[i])
  {
    if |lines| == 0 then [] else Texts(lines[..|lines| - 1]) + [Strip(lines[|lines| - 1])]
  }

  /** A line that continues a value: no colon and not blank once stripped. */
  predicate IsContinuation(line: string) {
    ':' !in Strip(line) && Strip(line) != ""
  }

  /** A label line for `col` with nothing after its colon, followed by
      colon-free, non-blank lines: `col` ends up holding those lines' stripped
      texts joined by single spaces, and stays active. */
  lemma {:induction false} LabelThenContinuations(
    before: seq<string>, header: string, name: string, rest: string, col: string,
    more: seq<string>)
    requires Strip(header) == name + ":" + rest && ':' !in name && Strip(rest) == ""
    requires col in Columns && NormalizeKey(Strip(name)) == NormalizeKey(col)
    requires forall i {:trigger IsContinuation(more[i])} :: 0 <= i < |more| ==> IsContinuation(more[i])
    ensures var st := Parse(before + [header] + more);
            st.active == Some(col) && col in st.data
            && st.data[col] == JoinSpaced(Texts(more))
    decreases |more|
  {
    if |more| == 0 {
      assert before + [header] + more == before + [header];
      LabelOpens(before, header, name, rest, col);
    } else {
      var init := more[..|more| - 1];
      var last := more[|more| - 1];
      forall i | 0 <= i < |init| ensures IsContinuation(init[i]) {
        assert init[i] == more[i] && IsContinuation(more[i]);
      }
      assert IsContinuation(more[|more| - 1]);
      LabelThenContinuations(before, header, name, rest, col, init);
      ExtendRun(before + [header], more, col);
    }
  }

  /** The inductive step of `LabelThenContinuations`, kept apart from the
      label line's facts. */
  lemma ExtendRun(prefix: seq<string>, more: seq<string>, col: string)
    requires |more| > 0
    requires forall i {:trigger IsContinuation(more[i])} :: 0 <= i < |more| ==> IsContinuation(more[i])
    requires var st := Parse(prefix + more[..|more| - 1]);
             st.active == Some(col) && col in st.data
             && st.data[col] == JoinSpaced(Texts(more[..|more| - 1]))
    ensures var st := Parse(prefix + more);
            st.active == Some(col) && col in st.data && st.data[col] == JoinSpaced(Texts(more))
  {
    var init := more[..|more| - 1];
    var last := more[|more| - 1];
    AppendLast(prefix, more);
    LastStep(prefix + init, last, prefix + more);
    ContinuationTexts(more, init);
    assert IsContinuation(more[|more| - 1]);
    ContinueJoined(Parse(prefix + init), last, col, Texts(init));
  }

  /** The texts of continuation lines are non-blank, and the last line's
      text comes last. */
  lemma ContinuationTexts(more: seq<string>, init: seq<string>)
    requires |more| > 0 && init == more[..|more| - 1]
    requires forall i {:trigger IsContinuation(more[i])} :: 0 <= i < |more| ==> IsContinuation(more[i])
    ensures forall i :: 0 <= i < |init| ==> Texts(init)[i] != ""
    ensures Texts(more) == Texts(init) + [Strip(more[|more| - 1])]
  {
    forall i | 0 <= i < |init| ensures Texts(init)[i] != "" {
      assert init[i] == more[i] && IsContinuation(more[i]);
    }
  }

  lemma AppendLast(prefix: seq<string>, more: seq<string>)
    requires |more| > 0
    ensures prefix + more == (prefix + more[..|more| - 1]) + [more[|more| - 1]]
  {
    assert more == more[..|more| - 1] + [more[|more| - 1]];
  }

  lemma LastStep(init: seq<string>, last: string, lines: seq<string>)
    requires lines == init + [last]
    ensures Parse(lines) == Step(Parse(init), last)
  {
    assert lines[..|lines| - 1] == init;
  }

  /** A label line for `col` with an empty value opens `col` with empty text. */
  lemma LabelOpens(before: seq<string>, header: string, name: string, rest: string, col: string)
    requires Strip(header) == name + ":" + rest && ':' !in name && Strip(rest) == ""
    requires col in Columns && NormalizeKey(Strip(name)) == NormalizeKey(col)
    ensures Parse(before + [header]).active == Some(col)
    ensures col in Parse(before + [header]).data && Parse(before + [header]).data[col] == ""
  {
    LastStep(before, header, before + [header]);
    StepLabelMatched(Parse(before), header, name, rest, col);
  }

  /** One more continuation line extends the joined text by one word. */
  lemma ContinueJoined(st: State, line: string, col: string, words: seq<string>)
    requires st.active == Some(col) && col in st.data && st.data[col] == JoinSpaced(words)
    requires forall i :: 0 <= i < |words| ==> words[i] != ""
    requires ':' !in Strip(line) && Strip(line) != ""
    ensures Step(st, line).active == Some(col) && col in Step(st, line).data
    ensures Step(st, line).data[col] == JoinSpaced(words + [Strip(line)])
  {
    var ws := words + [Strip(line)];
    assert ws[..|ws| - 1] == words;
    StepContinuation(st, line, col);
    if |words| > 1 {
      assert HasText(st.data, col);
    }
  }

  /** The record never holds anything but the seven columns. */
  lemma ParseKeysAreColumns(lines: seq<string>)
    ensures Parse(lines).data.Keys <= set c | c in Columns
  {
  }
}
