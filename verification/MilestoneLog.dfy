/** The milestone log as text, and the regression gate's reader of it. */
module MilestoneLog {
  import opened Common
  import opened Milestone
  import opened Text

  /** A key whose bytes are plain ASCII other than tab and line breaks. */
  ghost predicate PlainKey(key: Key) {
    forall k :: 0 <= k < |key| ==> key[k] < 128 && key[k] != 9 && key[k] != 10 && key[k] != 13
  }

  function KeyText(key: Key): (s: string)
    ensures |s| == |key|
    ensures forall k :: 0 <= k < |key| ==> s[k] == key[k] as char
  {
    seq(|key|, k requires 0 <= k < |key| => key[k] as char)
  }

  lemma PlainKeyText(key: Key)
    requires PlainKey(key)
    ensures '\t' !in KeyText(key) && '\n' !in KeyText(key)
  {
    forall k | 0 <= k < |key| ensures KeyText(key)[k] != '\t' && KeyText(key)[k] != '\n' {
      assert KeyText(key)[k] == key[k] as char;
      assert (KeyText(key)[k] as nat) == key[k];
    }
  }

  lemma KeyTextInjective(a: Key, b: Key)
    requires KeyText(a) == KeyText(b)
    ensures a == b
  {
    forall k | 0 <= k < |a| ensures a[k] == b[k] {
      assert KeyText(a)[k] == a[k] as char && KeyText(b)[k] == b[k] as char;
      assert (a[k] as char) as nat == (b[k] as char) as nat;
    }
  }

  function Render(line: Line): string {
    match line
    case Header => "# ps3recomp milestone log v1"
    case Stream(ord, key) => Decimal(ord) + "\t" + KeyText(key)
    case CountsMark => "# counts"
    case Count(key, bucket) => "count" + "\t" + (KeyText(key) + "\t" + bucket)
    case Kv(key, value) => "kv" + "\t" + (KeyText(key) + "\t" + SignedDecimal(value))
    case End => "# end"
  }

  function FileText(lines: seq<Line>): string {
    if lines == [] then "" else Render(lines[0]) + "\n" + FileText(lines[1..])
  }

  /** What the reader has collected: the keys in order, and the last bucket and value by key. */
  datatype Record = Record(stream: seq<string>, counts: map<string, string>, kv: map<string, int>)

  function AddText(r: Record, line: string): Record {
    if line == "" || line[0] == '#' then r
    else
      var parts := Split(line, '\t');
      if parts[0] == "count" && |parts| == 3 then r.(counts := r.counts[parts[1] := parts[2]])
      else if parts[0] == "kv" && |parts| == 3 then
        (match ParseInt(parts[2])
         case Some(v) => r.(kv := r.kv[parts[1] := v])
         case None => r)
      else if |parts| == 2 && AllDigits(parts[0]) then r.(stream := r.stream + [parts[1]])
      else r
  }

  function ReadLines(r: Record, lines: seq<string>): Record
    decreases |lines|
  {
    if lines == [] then r else ReadLines(AddText(r, lines[0]), lines[1..])
  }

  const EMPTY: Record := Record([], map[], map[])

  /** The reader: one pass over the lines, overwriting what it has of a key. */
  method ParseLog(text: string) returns (stream: seq<string>, counts: map<string, string>, kv: map<string, int>)
    ensures Record(stream, counts, kv) == ReadLines(EMPTY, Split(text, '\n'))
  {
    stream, counts, kv := [], map[], map[];
    var lines := Split(text, '\n');
    var n := 0;
    while n < |lines|
      invariant n <= |lines|
      invariant ReadLines(Record(stream, counts, kv), lines[n..]) == ReadLines(EMPTY, lines)
    {
      ghost var before := Record(stream, counts, kv);
      var line := lines[n];
      if line != "" && line[0] != '#' {
        var parts := Split(line, '\t');
        if parts[0] == "count" && |parts| == 3 {
          counts := counts[parts[1] := parts[2]];
        } else if parts[0] == "kv" && |parts| == 3 {
          var v := ParseInt(parts[2]);
          if v.Some? { kv := kv[parts[1] := v.value]; }
        } else if |parts| == 2 && AllDigits(parts[0]) {
          stream := stream + [parts[1]];
        }
      }
      assert Record(stream, counts, kv) == AddText(before, line);
      assert lines[n..][1..] == lines[n + 1..];
      n := n + 1;
    }
  }

  /** A line whose number is missing gives no key, and a value line whose value is missing or
      is only a sign gives no value. */
  lemma NothingFromNoNumber(r: Record, rest: string)
    requires '\t' !in rest
    ensures AddText(r, "\t" + rest) == r && AddText(r, "kv\t" + (rest + "\t")) == r
    ensures ParseInt("") == None && ParseInt("-") == None
  {
    hide AllDigits;
    EmptyIsNoNumber();
    SplitFirst("", rest, '\t');
    SplitNone(rest, '\t');
    assert "" + ['\t'] + rest == "\t" + rest;
    assert Split("\t" + rest, '\t') == ["", rest];
    SplitNone("", '\t');
    SplitThree("kv", rest, "");
    assert "kv" + "\t" + (rest + "\t" + "") == "kv\t" + (rest + "\t");
  }

  lemma EmptyIsNoNumber()
    ensures !AllDigits("") && !AllDigits("-") && ParseInt("") == None && ParseInt("-") == None
  {
    assert "-"[1..] == "";
    assert !IsDigit("-"[0]);
  }

  // ----- what the lines mean ---------------------------------------------------

  function StreamKeys(lines: seq<Line>): seq<string> {
    if lines == [] then []
    else
      var last := lines[|lines| - 1];
      StreamKeys(lines[..|lines| - 1]) + (if last.Stream? then [KeyText(last.key)] else [])
  }

  /** The bucket of the last count line for each key. */
  function LastCounts(lines: seq<Line>): (m: map<string, string>)
  {
    if lines == [] then map[]
    else
      var last := lines[|lines| - 1];
      var before := LastCounts(lines[..|lines| - 1]);
      if last.Count? then before[KeyText(last.key) := last.bucket] else before
  }

  function LastValues(lines: seq<Line>): map<string, int> {
    if lines == [] then map[]
    else
      var last := lines[|lines| - 1];
      var before := LastValues(lines[..|lines| - 1]);
      if last.Kv? then before[KeyText(last.key) := last.value] else before
  }

  function LineKey(line: Line): Option<Key> {
    match line
    case Stream(_, key) => Some(key)
    case Count(key, _) => Some(key)
    case Kv(key, _) => Some(key)
    case _ => None
  }

  predicate PlainBucket(bucket: string) {
    '\t' !in bucket && '\n' !in bucket
  }

  ghost predicate Printable(line: Line) {
    && (LineKey(line).Some? ==> PlainKey(LineKey(line).value))
    && (line.Count? ==> PlainBucket(line.bucket))
  }

  function AddLine(r: Record, line: Line): Record {
    match line
    case Stream(_, key) => r.(stream := r.stream + [KeyText(key)])
    case Count(key, bucket) => r.(counts := r.counts[KeyText(key) := bucket])
    case Kv(key, value) => r.(kv := r.kv[KeyText(key) := value])
    case _ => r
  }

  lemma NoDigitIsSeparator(n: nat)
    ensures '\t' !in Decimal(n) && '\n' !in Decimal(n)
  {
  }

  lemma SplitThree(a: string, b: string, c: string)
    requires '\t' !in a && '\t' !in b && '\t' !in c
    ensures Split(a + "\t" + (b + "\t" + c), '\t') == [a, b, c]
  {
    SplitFirst(a, b + "\t" + c, '\t');
    SplitFirst(b, c, '\t');
    SplitNone(c, '\t');
  }

  lemma AddPrintedStream(r: Record, ord: nat, key: Key)
    requires PlainKey(key)
    ensures AddText(r, Render(Stream(ord, key))) == AddLine(r, Stream(ord, key))
    ensures '\n' !in Render(Stream(ord, key))
  {
    var digits, text := Decimal(ord), KeyText(key);
    PlainKeyText(key);
    NoDigitIsSeparator(ord);
    SplitFirst(digits, text, '\t');
    SplitNone(text, '\t');
    assert Render(Stream(ord, key)) == digits + ['\t'] + text;
    assert Split(Render(Stream(ord, key)), '\t') == [digits, text];
    assert IsDigit(digits[0]) && Render(Stream(ord, key))[0] == digits[0];
  }

  lemma AddPrintedCount(r: Record, key: Key, bucket: string)
    requires PlainKey(key) && PlainBucket(bucket)
    ensures AddText(r, Render(Count(key, bucket))) == AddLine(r, Count(key, bucket))
    ensures '\n' !in Render(Count(key, bucket))
  {
    PlainKeyText(key);
    SplitThree("count", KeyText(key), bucket);
    assert Render(Count(key, bucket))[0] == 'c';
  }

  lemma SignedHasNoSeparator(value: int)
    ensures '\t' !in SignedDecimal(value) && '\n' !in SignedDecimal(value)
  {
    NoDigitIsSeparator(if value < 0 then -value else value);
  }

  lemma AddPrintedKv(r: Record, key: Key, value: int)
    requires PlainKey(key)
    ensures AddText(r, Render(Kv(key, value))) == AddLine(r, Kv(key, value))
    ensures '\n' !in Render(Kv(key, value))
  {
    hide KeyText, SignedDecimal, Split, ParseInt;
    PlainKeyText(key);
    SignedHasNoSeparator(value);
    SplitThree("kv", KeyText(key), SignedDecimal(value));
    ParsePrinted(value);
    var text := Render(Kv(key, value));
    assert text[0] == 'k' && Split(text, '\t') == ["kv", KeyText(key), SignedDecimal(value)];
  }

  /** One printed line is taken for what it was. */
  lemma AddPrinted(r: Record, line: Line)
    requires Printable(line)
    ensures AddText(r, Render(line)) == AddLine(r, line)
    ensures '\n' !in Render(line)
  {
    match line
    case Stream(ord, key) => AddPrintedStream(r, ord, key);
    case Count(key, bucket) => AddPrintedCount(r, key, bucket);
    case Kv(key, value) => AddPrintedKv(r, key, value);
    case _ =>
  }

  ghost predicate AllPrintable(lines: seq<Line>) {
    forall k :: 0 <= k < |lines| ==> Printable(lines[k])
  }

  function AddLines(r: Record, lines: seq<Line>): Record
    decreases |lines|
  {
    if lines == [] then r else AddLines(AddLine(r, lines[0]), lines[1..])
  }

  lemma {:induction false} ReadPrinted(r: Record, lines: seq<Line>)
    requires AllPrintable(lines)
    ensures ReadLines(r, Split(FileText(lines), '\n')) == AddLines(r, lines)
    decreases |lines|
  {
    if lines == [] {
      assert Split("", '\n') == [""];
      assert ReadLines(r, [""]) == ReadLines(AddText(r, ""), [""][1..]);
    } else {
      AddPrinted(r, lines[0]);
      SplitFirst(Render(lines[0]), FileText(lines[1..]), '\n');
      var rest := Split(FileText(lines[1..]), '\n');
      assert ([Render(lines[0])] + rest)[1..] == rest;
      ReadPrinted(AddLine(r, lines[0]), lines[1..]);
    }
  }

  lemma {:induction false} AddLinesSnoc(r: Record, lines: seq<Line>, line: Line)
    ensures AddLines(r, lines + [line]) == AddLine(AddLines(r, lines), line)
    decreases |lines|
  {
    if lines == [] {
      assert [line][1..] == [];
    } else {
      assert (lines + [line])[1..] == lines[1..] + [line];
      AddLinesSnoc(AddLine(r, lines[0]), lines[1..], line);
    }
  }

  lemma {:induction false} AddLinesMeaning(lines: seq<Line>)
    ensures AddLines(EMPTY, lines) == Record(StreamKeys(lines), LastCounts(lines), LastValues(lines))
    decreases |lines|
  {
    if lines != [] {
      var last := |lines| - 1;
      assert lines == lines[..last] + [lines[last]];
      AddLinesMeaning(lines[..last]);
      AddLinesSnoc(EMPTY, lines[..last], lines[last]);
    }
  }

  /** The text of any list of lines is read back as its keys in order, the last bucket of
      each counted key and the last value of each key set. */
  lemma ReaderInvertsWriter(lines: seq<Line>)
    requires AllPrintable(lines)
    ensures ReadLines(EMPTY, Split(FileText(lines), '\n'))
            == Record(StreamKeys(lines), LastCounts(lines), LastValues(lines))
  {
    ReadPrinted(EMPTY, lines);
    AddLinesMeaning(lines);
  }
}
