/** SVMMapper.map: a text line becomes one DoubleWritableArray emitted under
    the constant key "data". Double.parseDouble is a parameter: a function
    from a token to its bit pattern, or None where Java throws
    NumberFormatException. */
module Mapper {
  import opened Wrappers
  import opened Java
  import opened RecordCodec

  /** The key every record is emitted under. */
  const KEY: string := "data"

  /** The characters the regular expression class \s matches in Java:
      space, tab, newline, vertical tab, form feed, carriage return. All of
      them lie at or below the space, so no character of a number (digit,
      sign, point, exponent, the letters of NaN or Infinity) separates
      tokens. */
  predicate IsSpace(c: char)
    ensures IsSpace(c) ==> c <= ' '
  {
    c == ' ' || c == '\t' || c == '\n' || c == '\r' || c as int == 0x0B || c as int == 0x0C
  }

  /** A non-empty run of non-whitespace characters. */
  predicate IsWord(w: string) {
    |w| > 0 && forall k :: 0 <= k < |w| ==> !IsSpace(w[k])
  }

  /** The longest prefix of s holding no whitespace. */
  function TakeWord(s: string): (w: string)
    ensures |w| <= |s| && w == s[..|w|]
    ensures forall k :: 0 <= k < |w| ==> !IsSpace(w[k])
    ensures |w| < |s| ==> IsSpace(s[|w|])
  {
    if s == [] || IsSpace(s[0]) then [] else [s[0]] + TakeWord(s[1..])
  }

  /** The maximal whitespace-free runs of s, in order. */
  function Words(s: string): (ws: seq<string>)
    ensures forall i :: 0 <= i < |ws| ==> IsWord(ws[i])
    decreases |s|
  {
    if s == [] then []
    else if IsSpace(s[0]) then Words(s[1..])
    else
      var w := TakeWord(s);
      [w] + Words(s[|w|..])
  }

  /** String.split("\\s+") with its default limit: the pieces between runs of
      whitespace; a run at the very start yields a leading empty piece,
      trailing empty pieces are dropped, and the empty string yields the one
      piece "". */
  function Split(line: string): (tokens: seq<string>)
    ensures forall i :: 0 < i < |tokens| ==> IsWord(tokens[i])
    ensures |tokens| > 0 ==> (tokens[0] == [] <==> line == [] || IsSpace(line[0]))
    ensures |tokens| > 0 && tokens[0] != [] ==> IsWord(tokens[0])
  {
    if line == [] then [[]]
    else
      var ws := Words(line);
      if ws == [] then []
      else if IsSpace(line[0]) then [[]] + ws
      else ws
  }

  /** A run of whitespace, possibly empty. */
  predicate AllSpace(s: string) {
    forall k :: 0 <= k < |s| ==> IsSpace(s[k])
  }

  /** What String.split("\\s+") cuts at: a non-empty run of whitespace. */
  predicate IsSeparator(s: string) {
    |s| > 0 && AllSpace(s)
  }

  /** ws[0] + seps[0] + ws[1] + ... + seps[|ws|-2] + ws[|ws|-1]. */
  function Layout(ws: seq<string>, seps: seq<string>): string
    requires |ws| > 0 && |seps| == |ws| - 1
  {
    if |ws| == 1 then ws[0] else ws[0] + seps[0] + Layout(ws[1..], seps[1..])
  }

  /** The non-whitespace characters of s, in order. */
  function NonSpace(s: string): string {
    if s == [] then [] else (if IsSpace(s[0]) then [] else [s[0]]) + NonSpace(s[1..])
  }

  function Concat(ws: seq<string>): string {
    if ws == [] then [] else ws[0] + Concat(ws[1..])
  }

  lemma {:induction false} TakeWordOfWord(w: string, s: string)
    requires IsWord(w) && (s == [] || IsSpace(s[0]))
    ensures TakeWord(w + s) == w
  {
    if |w| > 1 {
      assert (w + s)[1..] == w[1..] + s;
      TakeWordOfWord(w[1..], s);
    } else {
      assert (w + s)[1..] == s;
    }
  }

  /** Whitespace in front changes no word. */
  lemma {:induction false} WordsSkipSpace(sp: string, s: string)
    requires AllSpace(sp)
    ensures Words(sp + s) == Words(s)
    decreases |sp|
  {
    if sp == [] {
      assert sp + s == s;
    } else {
      assert (sp + s)[1..] == sp[1..] + s;
      WordsSkipSpace(sp[1..], s);
    }
  }

  /** A word ended by whitespace or by the end of the string is the next
      token. */
  lemma WordsWordThen(w: string, s: string)
    requires IsWord(w) && (s == [] || IsSpace(s[0]))
    ensures Words(w + s) == [w] + Words(s)
  {
    TakeWordOfWord(w, s);
    assert (w + s)[|w|..] == s;
  }

  lemma {:induction false} WordsOfLayout(ws: seq<string>, seps: seq<string>, trail: string)
    requires |ws| > 0 && |seps| == |ws| - 1
    requires forall i :: 0 <= i < |ws| ==> IsWord(ws[i])
    requires forall i :: 0 <= i < |seps| ==> IsSeparator(seps[i])
    requires AllSpace(trail)
    ensures Words(Layout(ws, seps) + trail) == ws
    decreases |ws|
  {
    if |ws| == 1 {
      WordsWordThen(ws[0], trail);
      WordsSkipSpace(trail, []);
      assert trail + [] == trail;
    } else {
      var rest := Layout(ws[1..], seps[1..]) + trail;
      assert Layout(ws, seps) + trail == ws[0] + (seps[0] + rest);
      assert (seps[0] + rest)[0] == seps[0][0];
      WordsWordThen(ws[0], seps[0] + rest);
      WordsSkipSpace(seps[0], rest);
      WordsOfLayout(ws[1..], seps[1..], trail);
      assert ws == [ws[0]] + ws[1..];
    }
  }

  /** Split gives back the words of a line made of optional leading
      whitespace, words separated by whitespace runs of any length, and
      optional trailing whitespace: leading whitespace adds one empty first
      token, trailing whitespace adds nothing. */
  lemma SplitLayout(lead: string, ws: seq<string>, seps: seq<string>, trail: string)
    requires |ws| > 0 && |seps| == |ws| - 1
    requires forall i :: 0 <= i < |ws| ==> IsWord(ws[i])
    requires forall i :: 0 <= i < |seps| ==> IsSeparator(seps[i])
    requires AllSpace(lead) && AllSpace(trail)
    ensures Split(lead + Layout(ws, seps) + trail) == (if lead == [] then [] else [[]]) + ws
  {
    var body := Layout(ws, seps) + trail;
    var line := lead + body;
    assert lead + Layout(ws, seps) + trail == line;
    WordsSkipSpace(lead, body);
    WordsOfLayout(ws, seps, trail);
    LayoutStart(ws, seps);
    if lead == [] {
      assert line == body && line[0] == ws[0][0];
      SplitOfWords(line, ws);
    } else {
      assert line[0] == lead[0];
      SplitOfWords(line, ws);
    }
  }

  /** Split in terms of the words: one empty token in front exactly when the
      line starts with whitespace. */
  lemma SplitOfWords(line: string, ws: seq<string>)
    requires line != [] && Words(line) == ws && ws != []
    ensures Split(line) == (if IsSpace(line[0]) then [[]] else []) + ws
  {
  }

  /** The lines without a word: the empty line splits to the one token "",
      a non-empty all-whitespace line to no token at all. */
  lemma SplitNoToken(line: string)
    ensures Split([]) == [[]]
    ensures Split(line) == [] <==> line != [] && AllSpace(line)
  {
    if line != [] && AllSpace(line) {
      WordsSkipSpace(line, []);
      assert line + [] == line;
    } else if line != [] {
      WordsOfNonSpace(line);
    }
  }

  /** A string with a non-whitespace character has a word. */
  lemma {:induction false} WordsOfNonSpace(s: string)
    requires !AllSpace(s)
    ensures Words(s) != []
    decreases |s|
  {
    var k :| 0 <= k < |s| && !IsSpace(s[k]);
    if IsSpace(s[0]) {
      assert s[1..][k - 1] == s[k];
      WordsOfNonSpace(s[1..]);
    }
  }

  lemma LayoutStart(ws: seq<string>, seps: seq<string>)
    requires |ws| > 0 && |seps| == |ws| - 1 && IsWord(ws[0])
    ensures |Layout(ws, seps)| > 0 && Layout(ws, seps)[0] == ws[0][0]
  {
    if |ws| > 1 {
      assert Layout(ws, seps) == ws[0] + (seps[0] + Layout(ws[1..], seps[1..]));
    }
  }

  lemma {:induction false} NonSpaceAppend(a: string, b: string)
    ensures NonSpace(a + b) == NonSpace(a) + NonSpace(b)
  {
    if a != [] {
      assert (a + b)[1..] == a[1..] + b;
      NonSpaceAppend(a[1..], b);
    } else {
      assert a + b == b;
    }
  }

  lemma {:induction false} NonSpaceOfWord(w: string)
    requires forall k :: 0 <= k < |w| ==> !IsSpace(w[k])
    ensures NonSpace(w) == w
  {
    if w != [] {
      NonSpaceOfWord(w[1..]);
      assert w == [w[0]] + w[1..];
    }
  }

  /** Tokenising loses, adds and reorders no non-whitespace character. */
  lemma {:induction false} ConcatWords(s: string)
    ensures Concat(Words(s)) == NonSpace(s)
    decreases |s|
  {
    if s != [] {
      if IsSpace(s[0]) {
        ConcatWords(s[1..]);
      } else {
        var w := TakeWord(s);
        var rest := s[|w|..];
        assert s == w + rest;
        ConcatWords(rest);
        NonSpaceAppend(w, rest);
        NonSpaceOfWord(w);
        assert ([w] + Words(rest))[1..] == Words(rest);
      }
    }
  }

  /** The features parsed left to right; the first token parseDouble rejects
      is the one reported. */
  function ParseAll(ts: seq<string>, parseDouble: string -> Option<Double>): (r: Result<seq<Double>, Exception>)
    ensures r.Success? <==> forall i :: 0 <= i < |ts| ==> parseDouble(ts[i]).Some?
    ensures r.Success? ==> |r.value| == |ts| && forall i :: 0 <= i < |ts| ==> r.value[i] == parseDouble(ts[i]).value
    ensures r.Failure? ==>
      exists k :: (0 <= k < |ts| && parseDouble(ts[k]).None?
        && (forall j :: 0 <= j < k ==> parseDouble(ts[j]).Some?)
        && r.error == NumberFormatException(ts[k]))
  {
    if ts == [] then Success([])
    else
      var front := ts[..|ts| - 1];
      var last := ts[|ts| - 1];
      match ParseAll(front, parseDouble)
      case Failure(e) =>
        assert forall j :: 0 <= j < |front| ==> front[j] == ts[j];
        Failure(e)
      case Success(vs) =>
        assert forall j :: 0 <= j < |front| ==> front[j] == ts[j];
        match parseDouble(last)
        case None => Failure(NumberFormatException(last))
        case Some(v) => Success(vs + [v])
  }

  /** What map computes for one line: the label from the last token, parsed
      first, then the features from the tokens before it. The line without
      tokens fails on the index, any other failure names one of its tokens. */
  function ParseLine(line: string, parseDouble: string -> Option<Double>): (r: Result<Record, Exception>)
    ensures (r == Failure(IndexOutOfBoundsException)) == (Split(line) == [])
    ensures r.Failure? && Split(line) != [] ==> r.error.NumberFormatException? && r.error.token in Split(line)
    ensures r.Success? ==> |r.value.features| == |Split(line)| - 1
  {
    var tokens := Split(line);
    if |tokens| == 0 then Failure(IndexOutOfBoundsException)
    else
      var last := tokens[|tokens| - 1];
      match parseDouble(last)
      case None => Failure(NumberFormatException(last))
      case Some(y) =>
        var front := tokens[..|tokens| - 1];
        match ParseAll(front, parseDouble)
        case Failure(e) =>
          assert forall k :: 0 <= k < |front| ==> front[k] in tokens;
          Failure(e)
        case Success(features) => Success(Record(features, y))
  }

  /** map succeeds exactly when the line has a token and every token parses;
      then there is one feature per token but the last, in token order, and
      the label comes from the last token. */
  lemma ParseLineSpec(line: string, parseDouble: string -> Option<Double>)
    ensures var tokens := Split(line);
      ParseLine(line, parseDouble).Success? <==>
        |tokens| > 0 && forall i :: 0 <= i < |tokens| ==> parseDouble(tokens[i]).Some?
    ensures var tokens := Split(line);
      ParseLine(line, parseDouble).Success? ==>
        var rec := ParseLine(line, parseDouble).value;
        && |rec.features| == |tokens| - 1
        && (forall i :: 0 <= i < |tokens| - 1 ==> rec.features[i] == parseDouble(tokens[i]).value)
        && rec.classLabel == parseDouble(tokens[|tokens| - 1]).value
    ensures Split(line) == [] ==> ParseLine(line, parseDouble) == Failure(IndexOutOfBoundsException)
    ensures var tokens := Split(line);
      |tokens| > 0 && parseDouble(tokens[|tokens| - 1]).None? ==>
        ParseLine(line, parseDouble) == Failure(NumberFormatException(tokens[|tokens| - 1]))
  {
    var tokens := Split(line);
    if |tokens| > 0 {
      var front := tokens[..|tokens| - 1];
      assert forall i :: 0 <= i < |front| ==> front[i] == tokens[i];
      if forall i :: 0 <= i < |tokens| ==> parseDouble(tokens[i]).Some? {
        assert ParseAll(front, parseDouble).Success?;
      }
    }
  }

  /** map throws IndexOutOfBoundsException exactly on the non-empty
      all-whitespace lines; the empty line is the one token "", parsed as
      the label. */
  lemma NoWordLine(line: string, parseDouble: string -> Option<Double>)
    ensures (ParseLine(line, parseDouble) == Failure(IndexOutOfBoundsException)) == (line != [] && AllSpace(line))
    ensures ParseLine([], parseDouble) ==
      if parseDouble([]).None? then Failure(NumberFormatException([])) else Success(Record([], parseDouble([]).value))
  {
    SplitNoToken(line);
    var one: seq<string> := [[]];
    assert one[..0] == [];
  }

  /** When "" does not parse, as with Double.parseDouble, the empty line and
      every line starting with whitespace fail: their first token is "". */
  lemma LeadingSpaceFails(line: string, parseDouble: string -> Option<Double>)
    requires parseDouble([]).None?
    ensures line == [] || IsSpace(line[0]) ==> ParseLine(line, parseDouble).Failure?
  {
    ParseLineSpec(line, parseDouble);
    if Split(line) != [] {
      assert line == [] || IsSpace(line[0]) ==> Split(line)[0] == [];
    }
  }

  /** A line holding a single token is accepted: the token is the label and
      the record has no features. */
  lemma OneTokenLine(w: string, parseDouble: string -> Option<Double>)
    requires IsWord(w) && parseDouble(w).Some?
    ensures ParseLine(w, parseDouble) == Success(Record([], parseDouble(w).value))
  {
    SplitLayout([], [w], [], []);
    assert [] + Layout([w], []) + [] == w;
  }

  /** SVMMapper.map: tokenises the line, parses the label, allocates the
      feature array, fills it left to right and emits it under KEY. */
  method Map(line: string, parseDouble: string -> Option<Double>)
      returns (r: Result<(string, DoubleWritableArray), Exception>)
    ensures var p := ParseLine(line, parseDouble);
      && (r.Success? <==> p.Success?)
      && (r.Failure? ==> r.error == p.error)
      && (r.Success? ==>
            && r.value.0 == KEY
            && fresh(r.value.1) && r.value.1.elements != null && fresh(r.value.1.elements)
            && r.value.1.Value() == p.value)
  {
    var tokens := Split(line);
    if |tokens| == 0 {
      return Failure(IndexOutOfBoundsException);
    }
    var last := tokens[|tokens| - 1];
    var y := parseDouble(last);
    if y.None? {
      return Failure(NumberFormatException(last));
    }
    var front := tokens[..|tokens| - 1];
    var parsed := ParseFeatures(front, parseDouble);
    if parsed.Failure? {
      return Failure(parsed.error);
    }
    var features := parsed.value;
    assert ParseLine(line, parseDouble) == Success(Record(features[..], y.value));
    var rec := new DoubleWritableArray(features, y.value);
    r := Success((KEY, rec));
  }

  /** Lines 23-26: allocates the feature array and fills it left to right,
      stopping at the first token parseDouble rejects. */
  method ParseFeatures(ts: seq<string>, parseDouble: string -> Option<Double>)
      returns (r: Result<array<Double>, Exception>)
    ensures r.Success? <==> ParseAll(ts, parseDouble).Success?
    ensures r.Failure? ==> r.error == ParseAll(ts, parseDouble).error
    ensures r.Success? ==> fresh(r.value) && r.value[..] == ParseAll(ts, parseDouble).value
  {
    var features := new Double[|ts|];
    for i := 0 to |ts|
      invariant forall j :: 0 <= j < i ==> parseDouble(ts[j]).Some? && features[j] == parseDouble(ts[j]).value
    {
      var v := parseDouble(ts[i]);
      if v.None? {
        FirstFailure(ts, parseDouble, i);
        return Failure(NumberFormatException(ts[i]));
      }
      features[i] := v.value;
    }
    assert features[..] == ParseAll(ts, parseDouble).value;
    r := Success(features);
  }

  /** When every token before i parses and token i does not, ParseAll reports
      token i. */
  lemma FirstFailure(ts: seq<string>, parseDouble: string -> Option<Double>, i: nat)
    requires i < |ts| && parseDouble(ts[i]).None?
    requires forall j :: 0 <= j < i ==> parseDouble(ts[j]).Some?
    ensures ParseAll(ts, parseDouble) == Failure(NumberFormatException(ts[i]))
  {
    var e := ParseAll(ts, parseDouble);
    var k :| 0 <= k < |ts| && parseDouble(ts[k]).None?
      && (forall j :: 0 <= j < k ==> parseDouble(ts[j]).Some?)
      && e.error == NumberFormatException(ts[k]);
    assert k == i;
  }

  /** One map task over its lines, given each line's outcome: all pairs under
      KEY in input order, or the exception of the first line that throws. */
  function CollectAll(rs: seq<Result<Record, Exception>>): (r: Result<seq<(string, Record)>, Exception>)
    ensures r.Success? <==> forall i :: 0 <= i < |rs| ==> rs[i].Success?
    ensures r.Success? ==> |r.value| == |rs|
    ensures r.Success? ==> forall i :: 0 <= i < |rs| ==> r.value[i] == (KEY, rs[i].value)
    ensures r.Failure? ==>
      exists k :: (0 <= k < |rs| && rs[k].Failure? && r.error == rs[k].error
        && (forall j :: 0 <= j < k ==> rs[j].Success?))
  {
    if rs == [] then Success([])
    else if rs[0].Failure? then Failure(rs[0].error)
    else
      var tail := rs[1..];
      var rest := CollectAll(tail);
      assert forall i :: 1 <= i < |rs| ==> rs[i] == tail[i - 1];
      if rest.Failure? then
        ghost var k :| 0 <= k < |tail| && tail[k].Failure? && rest.error == tail[k].error
          && (forall j :: 0 <= j < k ==> tail[j].Success?);
        assert rs[k + 1] == tail[k];
        Failure(rest.error)
      else Success([(KEY, rs[0].value)] + rest.value)
  }

  /** The map phase run as one sequential task over its lines: every line's
      record under KEY, in line order; the first line that throws fails the
      task with its exception. */
  function MapAll(lines: seq<string>, parseDouble: string -> Option<Double>): (r: Result<seq<(string, Record)>, Exception>)
    ensures r.Success? <==> forall i :: 0 <= i < |lines| ==> ParseLine(lines[i], parseDouble).Success?
    ensures r.Success? ==> |r.value| == |lines|
    ensures r.Success? ==> forall i :: 0 <= i < |lines| ==>
      r.value[i] == (KEY, ParseLine(lines[i], parseDouble).value)
    ensures r.Failure? ==>
      exists k :: (0 <= k < |lines| && ParseLine(lines[k], parseDouble).Failure?
        && r.error == ParseLine(lines[k], parseDouble).error
        && (forall j :: 0 <= j < k ==> ParseLine(lines[j], parseDouble).Success?))
  {
    var rs := seq(|lines|, i requires 0 <= i < |lines| => ParseLine(lines[i], parseDouble));
    assert forall i :: 0 <= i < |lines| ==> rs[i] == ParseLine(lines[i], parseDouble);
    CollectAll(rs)
  }

  /** The values handed to the reduce call for `key`, taken as an
      order-preserving filter of one task's output. Hadoop's shuffle sorts by
      key only, so the order within a group is not fixed by the framework. */
  function ValuesFor(pairs: seq<(string, Record)>, key: string): seq<Record> {
    if pairs == [] then []
    else (if pairs[0].0 == key then [pairs[0].1] else []) + ValuesFor(pairs[1..], key)
  }

  lemma {:induction false} ValuesForConstantKey(pairs: seq<(string, Record)>, key: string)
    requires forall i :: 0 <= i < |pairs| ==> pairs[i].0 == KEY
    ensures key == KEY ==> ValuesFor(pairs, key) == seq(|pairs|, i requires 0 <= i < |pairs| => pairs[i].1)
    ensures key != KEY ==> ValuesFor(pairs, key) == []
  {
    if pairs != [] {
      ValuesForConstantKey(pairs[1..], key);
    }
  }

  /** All records reach a single reduce call: the one for KEY receives every
      record (in line order, under the order-preserving grouping above), and
      any other key receives none. */
  lemma SingleReduceGroup(lines: seq<string>, parseDouble: string -> Option<Double>, key: string)
    requires MapAll(lines, parseDouble).Success?
    ensures var pairs := MapAll(lines, parseDouble).value;
      && (key == KEY ==>
            ValuesFor(pairs, key) == seq(|lines|, i requires 0 <= i < |lines| => ParseLine(lines[i], parseDouble).value))
      && (key != KEY ==> ValuesFor(pairs, key) == [])
  {
    var pairs := MapAll(lines, parseDouble).value;
    ValuesForConstantKey(pairs, key);
  }
}
