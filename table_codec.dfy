// The health table file: one text line per device, written by write_table
// and read back by load_table. Timestamps are integer seconds here; the
// strftime/strptime pair that turns them into text is a parameter (fmt and
// parse) because the calendar is not part of this model.
module TableCodec {
  import opened Maybe
  import opened Text
  import opened Numerals
  import opened Order
  import opened Health

  /** Width of the padded "name:" column. */
  const KeySize := 30

  const BatteryLabel := "Battery:"
  const CurrentLabel := "Current Signal:"
  const MinLabel := "Min Signal:"
  const LastLabel := "Last Update"
  const LongestLabel := "Longest Update:"

  /** The labels the reader searches for, in the order it searches. */
  const Labels := [BatteryLabel, CurrentLabel, MinLabel, LastLabel, LongestLabel]

  /** The battery column: " -" when unknown, else the level right-aligned in two. */
  function BatteryText(b: Reading): string {
    match b
    case Unknown => " -"
    case Known(v) => RJust(IntToStr(v), 2)
  }

  /** A signal column: "??" when unknown, else the number; right-aligned in four. */
  function SignalText(s: Reading): string {
    RJust(match s case Unknown => "??" case Known(v) => IntToStr(v), 4)
  }

  /** The part of a line after the name column. */
  function Fields(battery: string, current: string, minimum: string, stamp: string, longest: string): string {
    " Battery:" + (battery +
    ("   Current Signal:" + (current +
    ("   Min Signal:" + (minimum +
    ("   Last Update: " + (stamp +
    ("   Longest Update: " + (longest + " Mins\n")))))))))
  }

  /** The line write_table emits for device name with record r. */
  function EncodeLine(name: string, r: Record, fmt: int -> string): string {
    "  " + (LJust(name + ":", KeySize) +
      Fields(BatteryText(r.battery), SignalText(r.signal), SignalText(r.minSignal), fmt(r.updated), IntToStr(r.longest)))
  }

  /** The lines of the whole file, one per name, in the given order. */
  function EncodeTable(m: map<string, Record>, names: seq<string>, fmt: int -> string): (lines: seq<string>)
    requires forall n :: n in names ==> n in m
    ensures |lines| == |names|
    ensures forall i :: 0 <= i < |names| ==> lines[i] == EncodeLine(names[i], m[names[i]], fmt)
  {
    if names == [] then [] else [EncodeLine(names[0], m[names[0]], fmt)] + EncodeTable(m, names[1..], fmt)
  }

  /** The battery column read back: "-" is unknown, anything else goes through int(). */
  function BatteryOf(text: string): Option<Reading> {
    if text == "-" then Some(Unknown)
    else
      var v :- ParseInt(text);
      Some(Known(v))
  }

  /** A signal column read back: "??" is unknown, anything else goes through int(). */
  function SignalOf(text: string): Option<Reading> {
    if text == "??" then Some(Unknown)
    else
      var v :- ParseInt(text);
      Some(Known(v))
  }

  /** What load_table takes from one non-blank line: the name from the fixed
      column, each value at a fixed offset from where its label is first
      found. None stands for the ValueError an unreadable number raises. */
  function DecodeLine(line: string, parse: string -> Option<int>): Option<(string, Record)> {
    var name := PySlice(RStrip(PySlice(line, 2, KeySize + 2)), 0, -1);
    var pb := Find(line, BatteryLabel);
    var battery := PySlice(line, pb + 9, pb + 9 + 1);
    var pc := Find(line, CurrentLabel);
    var current := LStrip(PySlice(line, pc + 15, pc + 15 + 4));
    var pm := Find(line, MinLabel);
    var minimum := LStrip(PySlice(line, pm + 11, pm + 11 + 4));
    var pl := Find(line, LastLabel);
    var stamp := LStrip(PySlice(line, pl + 13, pl + 34 + 1));
    var pg := Find(line, LongestLabel);
    var longest := PySlice(line, pg + 16, |line| - 6);
    var b :- BatteryOf(battery);
    var c :- SignalOf(current);
    var m :- SignalOf(minimum);
    var t :- parse(stamp);
    var g :- ParseInt(longest);
    Some((name, Record(b, c, m, t, g)))
  }

  /** A line load_table skips: nothing but whitespace. */
  predicate IsBlank(line: string) {
    forall i :: 0 <= i < |line| ==> IsSpace(line[i])
  }

  /** The skip test of load_table, len(line.rstrip()) == 0, is exactly IsBlank. */
  lemma BlankIsEmptyStripped(line: string)
    ensures IsBlank(line) <==> |RStrip(line)| == 0
  {
    var r := RStrip(line);
    if |r| > 0 {
      assert line[|r| - 1] == r[|r| - 1];
    }
  }

  /** The table read from lines into acc: a later line for the same name
      replaces an earlier one, and one unreadable line fails the load. */
  function DecodeInto(acc: map<string, Record>, lines: seq<string>, parse: string -> Option<int>): Option<map<string, Record>>
    decreases |lines|
  {
    if lines == [] then Some(acc)
    else if IsBlank(lines[0]) then DecodeInto(acc, lines[1..], parse)
    else
      var entry :- DecodeLine(lines[0], parse);
      DecodeInto(acc[entry.0 := entry.1], lines[1..], parse)
  }

  function DecodeTable(lines: seq<string>, parse: string -> Option<int>): Option<map<string, Record>> {
    DecodeInto(map[], lines, parse)
  }

  /** load_table: read the lines one by one into a fresh table. */
  method LoadTable(lines: seq<string>, parse: string -> Option<int>) returns (table: Option<map<string, Record>>)
    ensures table == DecodeTable(lines, parse)
  {
    var acc := map[];
    for i := 0 to |lines|
      invariant DecodeInto(acc, lines[i..], parse) == DecodeTable(lines, parse)
    {
      assert lines[i..][1..] == lines[i + 1..];
      if !IsBlank(lines[i]) {
        var entry := DecodeLine(lines[i], parse);
        if entry.None? {
          return None;
        }
        acc := acc[entry.value.0 := entry.value.1];
      }
    }
    assert lines[|lines|..] == [];
    return Some(acc);
  }

  /** write_table: the lines for every device, in sorted name order. */
  method WriteTable(m: map<string, Record>, fmt: int -> string) returns (lines: seq<string>)
    ensures lines == EncodeTable(m, SortedOf(m.Keys), fmt)
  {
    var names := SortedNames(m);
    assert forall n :: n in names ==> n in m;
    ghost var file := EncodeTable(m, names, fmt);
    lines := [];
    for i := 0 to |names|
      invariant lines == file[..i]
    {
      var line := Row(m, names, i, fmt, file);
      Snoc(file, i, line);
      lines := lines + [line];
    }
    assert file[..|names|] == file;
  }

  /** The i-th line of the file, which extends the first i lines by one. */
  method Row(m: map<string, Record>, names: seq<string>, i: nat, fmt: int -> string, ghost file: seq<string>) returns (line: string)
    requires forall n :: n in names ==> n in m
    requires i < |names| && file == EncodeTable(m, names, fmt)
    ensures line == file[i]
  {
    line := EncodeLine(names[i], m[names[i]], fmt);
  }

  lemma Snoc(s: seq<string>, i: nat, x: string)
    requires i < |s| && s[i] == x
    ensures s[..i + 1] == s[..i] + [x]
  {
  }

  // ---------------------------------------------------------------------
  // Reading back what was written.

  /** A name the reader recovers: it stays on its line, its "name:" fits
      the column and contains none of the labels the reader searches for. */
  predicate KeyOk(name: string) {
    SingleLine(name) && |name| < KeySize && forall p :: p in Labels ==> !Contains(name + ":", p)
  }

  /** A signal that fits its four-character column. */
  predicate SignalFits(s: Reading) {
    s.Unknown? || |IntToStr(s.value)| <= 4
  }

  /** A timestamp text the reader recovers: the 22 characters the reader
      takes, on one line, not starting with whitespace, and not containing
      the last label. */
  predicate StampOk(t: string) {
    |t| == 22 && SingleLine(t) && !IsSpace(t[0]) && !Contains(t, LongestLabel)
  }

  /** A record whose line reads back as itself: a one-digit battery level
      (the reader takes a single character), signals that fit their columns,
      and a stamp that parse inverts. */
  predicate Writable(r: Record, fmt: int -> string, parse: string -> Option<int>) {
    && (r.battery.Unknown? || 0 <= r.battery.value <= 9)
    && SignalFits(r.signal) && SignalFits(r.minSignal)
    && StampOk(fmt(r.updated)) && parse(fmt(r.updated)) == Some(r.updated)
  }

  /** Characters the number columns are made of; none can start a label. */
  predicate ColumnText(s: string) {
    forall i :: 0 <= i < |s| ==> s[i] == ' ' || s[i] == '-' || s[i] == '?' || IsDigit(s[i])
  }

  lemma BatteryBack(b: Reading)
    requires b.Unknown? || 0 <= b.value <= 9
    ensures |BatteryText(b)| == 2 && ColumnText(BatteryText(b))
    ensures BatteryOf(BatteryText(b)[1..]) == Some(b)
  {
    if b.Known? {
      var d := IntToStr(b.value);
      assert |d| == 1;
      IntRoundTrip(b.value);
      assert BatteryText(b)[1..] == d;
    }
  }

  lemma SignalBack(s: Reading)
    requires SignalFits(s)
    ensures |SignalText(s)| == 4 && ColumnText(SignalText(s))
    ensures SignalOf(LStrip(SignalText(s))) == Some(s)
  {
    var d := match s case Unknown => "??" case Known(v) => IntToStr(v);
    PaddedBack(d);
    if s.Known? {
      KnownSignalBack(s.value, d);
    }
  }

  /** A column of at most four characters is its text after the padding. */
  lemma PaddedBack(d: string)
    requires 1 <= |d| <= 4 && !IsSpace(d[0]) && ColumnText(d)
    ensures |RJust(d, 4)| == 4 && ColumnText(RJust(d, 4))
    ensures LStrip(RJust(d, 4)) == d
  {
    assert RJust(d, 4) == Spaces(4 - |d|) + d;
    LStripSpaces(4 - |d|, d);
  }

  lemma KnownSignalBack(v: int, d: string)
    requires d == IntToStr(v)
    ensures SignalOf(d) == Some(Known(v))
  {
    assert d[0] != '?';
    IntRoundTrip(v);
  }

  /** The tail of a line from the given column onwards: the line after the
      name is Tail(0, ...), and Tail(k, ...) starts at the k-th separator. */
  function Tail(k: nat, b: string, c: string, m: string, t: string, g: string): string
    requires k <= 4
    decreases 4 - k
  {
    if k == 4 then "   Longest Update: " + (g + " Mins\n")
    else if k == 3 then "   Last Update: " + (t + Tail(4, b, c, m, t, g))
    else if k == 2 then "   Min Signal:" + (m + Tail(3, b, c, m, t, g))
    else if k == 1 then "   Current Signal:" + (c + Tail(2, b, c, m, t, g))
    else " Battery:" + (b + Tail(1, b, c, m, t, g))
  }

  lemma FieldsAreTail(b: string, c: string, m: string, t: string, g: string)
    ensures Fields(b, c, m, t, g) == Tail(0, b, c, m, t, g)
  {
  }

  lemma FindBattery(b: string, c: string, m: string, t: string, g: string)
    ensures Find(Fields(b, c, m, t, g), BatteryLabel) == 1
  {
    FieldsAreTail(b, c, m, t, g);
    assert " Battery:" == " " + BatteryLabel;
    FindAfter(" ", BatteryLabel, b + Tail(1, b, c, m, t, g));
  }

  /** Skipping a number column and the separator before it. */
  lemma SkipColumn(lead: string, col: string, rest: string, p: string, k: int)
    requires |p| > 0 && p[0] !in lead && ColumnText(col) && p[0] in "BCML"
    requires k >= 0 && Find(rest, p) == k
    ensures Find(lead + (col + rest), p) == |lead| + |col| + k
  {
    FindPast(col, rest, p, k);
    FindPast(lead, col + rest, p, |col| + k);
  }

  lemma FindCurrent(b: string, c: string, m: string, t: string, g: string)
    requires |b| == 2 && ColumnText(b)
    ensures Find(Fields(b, c, m, t, g), CurrentLabel) == 14
  {
    FieldsAreTail(b, c, m, t, g);
    assert "   Current Signal:" == "   " + CurrentLabel;
    FindAfter("   ", CurrentLabel, c + Tail(2, b, c, m, t, g));
    SkipColumn(" Battery:", b, Tail(1, b, c, m, t, g), CurrentLabel, 3);
  }

  lemma FindMin(b: string, c: string, m: string, t: string, g: string)
    requires |b| == 2 && |c| == 4 && ColumnText(b) && ColumnText(c)
    ensures Find(Fields(b, c, m, t, g), MinLabel) == 36
  {
    FieldsAreTail(b, c, m, t, g);
    FindMinHere(m + Tail(3, b, c, m, t, g));
    SkipColumn("   Current Signal:", c, Tail(2, b, c, m, t, g), MinLabel, 3);
    SkipColumn(" Battery:", b, Tail(1, b, c, m, t, g), MinLabel, 25);
  }

  lemma FindLast(b: string, c: string, m: string, t: string, g: string)
    requires |b| == 2 && |c| == 4 && |m| == 4
    requires ColumnText(b) && ColumnText(c) && ColumnText(m)
    ensures Find(Fields(b, c, m, t, g), LastLabel) == 54
  {
    FieldsAreTail(b, c, m, t, g);
    FindLastHere(t + Tail(4, b, c, m, t, g));
    SkipColumn("   Min Signal:", m, Tail(3, b, c, m, t, g), LastLabel, 3);
    SkipColumn("   Current Signal:", c, Tail(2, b, c, m, t, g), LastLabel, 21);
    SkipColumn(" Battery:", b, Tail(1, b, c, m, t, g), LastLabel, 43);
  }

  lemma FindLastHere(x: string)
    ensures Find("   Last Update: " + x, LastLabel) == 3
  {
    FindAfterThen("   ", LastLabel, ": ", x);
    LastUpdateSpelled();
  }

  lemma LastUpdateSpelled()
    ensures "   " + LastLabel + ": " == "   Last Update: "
  {
    assert "   " + LastLabel == "   Last Update";
  }

  lemma FindMinHere(x: string)
    ensures Find("   Min Signal:" + x, MinLabel) == 3
  {
    assert "   Min Signal:" == "   " + MinLabel;
    FindAfter("   ", MinLabel, x);
  }

  /** "Last Update:" cannot hold the longer label that starts like it. */
  lemma SkipLastUpdate(x: string, k: int)
    requires k >= 0 && Find(x, LongestLabel) == k
    ensures Find("   Last Update: " + x, LongestLabel) == 16 + k
  {
    FindPast(" ", x, LongestLabel, k);
    SkipLastColon(" " + x, 1 + k);
    FindPast("   ", "Last Update:" + (" " + x), LongestLabel, 13 + k);
    LastUpdateRegroup(x);
  }

  lemma SkipLastColon(y: string, k: int)
    requires k >= 0 && Find(y, LongestLabel) == k
    ensures Find("Last Update:" + y, LongestLabel) == 12 + k
  {
    FindPastColon("Last Update:", y, LongestLabel, k);
  }

  lemma LastUpdateRegroup(x: string)
    ensures "   Last Update: " + x == "   " + ("Last Update:" + (" " + x))
  {
    assert "   Last Update: " == "   " + "Last Update:" + " ";
    Regroup("   ", "Last Update:", " ");
    Regroup("   " + "Last Update:", " ", x);
    Regroup("   ", "Last Update:", " " + x);
  }

  /** Past a stamp that does not contain the label. */
  lemma FindLongestAfterStamp(t: string, rest: string)
    requires |t| == 22 && !Contains(t, LongestLabel)
    ensures Find(t + ("   Longest Update: " + rest), LongestLabel) == 25
  {
    assert "   Longest Update: " == "   " + LongestLabel + " ";
    FindAfterThen("   ", LongestLabel, " ", rest);
    FindPastBeforeSpaces(t, "   Longest Update: " + rest, LongestLabel, 3);
  }

  lemma FindLongest(b: string, c: string, m: string, t: string, g: string)
    requires |b| == 2 && |c| == 4 && |m| == 4 && |t| == 22
    requires ColumnText(b) && ColumnText(c) && ColumnText(m)
    requires !Contains(t, LongestLabel)
    ensures Find(Fields(b, c, m, t, g), LongestLabel) == 92
  {
    FieldsAreTail(b, c, m, t, g);
    FindLongestAfterStamp(t, g + " Mins\n");
    SkipLastUpdate(t + Tail(4, b, c, m, t, g), 25);
    SkipColumn("   Min Signal:", m, Tail(3, b, c, m, t, g), LongestLabel, 41);
    SkipColumn("   Current Signal:", c, Tail(2, b, c, m, t, g), LongestLabel, 59);
    SkipColumn(" Battery:", b, Tail(1, b, c, m, t, g), LongestLabel, 81);
  }

  /** Where each value sits in the part of a line after the name. */
  lemma FieldsSlices(b: string, c: string, m: string, t: string, g: string)
    requires |b| == 2 && |c| == 4 && |m| == 4 && |t| == 22
    ensures var f := Fields(b, c, m, t, g);
      && |f| == 114 + |g|
      && f[10..11] == b[1..] && f[29..33] == c && f[47..51] == m
      && f[67..89] == t && f[108..|f| - 6] == g
  {
    Layout(" Battery:", b, "   Current Signal:", c, "   Min Signal:", m, "   Last Update: ", t,
           "   Longest Update: ", g, " Mins\n");
  }

  /** Where the pieces of l1 + (x1 + (l2 + (x2 + ...))) sit, by their lengths alone. */
  lemma Layout(l1: string, b: string, l2: string, c: string, l3: string, m: string, l4: string, t: string,
               l5: string, g: string, l6: string)
    requires |l1| == 9 && |b| == 2 && |l2| == 18 && |c| == 4 && |l3| == 14 && |m| == 4
    requires |l4| == 16 && |t| == 22 && |l5| == 19 && |l6| == 6
    ensures var f := l1 + (b + (l2 + (c + (l3 + (m + (l4 + (t + (l5 + (g + l6)))))))));
      && |f| == 114 + |g|
      && f[10..11] == b[1..] && f[29..33] == c && f[47..51] == m
      && f[67..89] == t && f[108..|f| - 6] == g
  {
    var t5 := l5 + (g + l6);
    var t4 := l4 + (t + t5);
    var t3 := l3 + (m + t4);
    var t2 := l2 + (c + t3);
    var f := l1 + (b + t2);
    Inner(l1, b, t2, 1);
    Inner(l2, c, t3, 0);
    Inner(l3, m, t4, 0);
    Inner(l4, t, t5, 0);
    Inner(l5, g, l6, 0);
    SubSlice(f, 11, 18, 22);
    SubSlice(f, 11, 22, |t2|);
    SubSlice(f, 33, 14, 18);
    SubSlice(f, 33, 18, |t3|);
    SubSlice(f, 51, 16, 38);
    SubSlice(f, 51, 38, |t4|);
    SubSlice(f, 89, 19, 19 + |g|);
  }

  /** The middle part of pre + (x + post), from its k-th character, and what follows it. */
  lemma Inner(pre: string, x: string, post: string, k: nat)
    requires k <= |x|
    ensures (pre + (x + post))[|pre| + k..|pre| + |x|] == x[k..]
    ensures (pre + (x + post))[|pre| + |x|..] == post
  {
  }

  lemma SubSlice(s: string, a: nat, i: nat, j: nat)
    requires a + j <= |s| && i <= j
    ensures s[a..][i..j] == s[a + i..a + j]
  {
  }


  /** The name column is "name:" followed by spaces. */
  lemma KeyColumn(name: string)
    requires |name| < KeySize
    ensures LJust(name + ":", KeySize) == (name + ":") + Spaces(KeySize - 1 - |name|)
  {
  }

  /** A label starts with a letter and has no ':' before its end. */
  predicate LabelShaped(p: string) {
    |p| > 0 && p[0] != ' ' && forall i :: 0 <= i < |p| - 1 ==> p[i] != ':'
  }

  lemma LabelsShaped()
    ensures forall p :: p in Labels ==> LabelShaped(p)
  {
    assert LabelShaped(BatteryLabel);
    assert LabelShaped(CurrentLabel);
    assert LabelShaped(MinLabel);
    assert LabelShaped(LastLabel);
    assert LabelShaped(LongestLabel);
  }

  /** The name column shifts every label by the same 32 characters. */
  lemma LineFind(name: string, f: string, p: string, k: int)
    requires |name| < KeySize && LabelShaped(p) && !Contains(name + ":", p)
    requires k >= 0 && Find(f, p) == k
    ensures Find("  " + (LJust(name + ":", KeySize) + f), p) == 32 + k
  {
    KeyFind(name, f, p, k);
    FindPast("  ", LJust(name + ":", KeySize) + f, p, 30 + k);
  }

  lemma KeyFind(name: string, f: string, p: string, k: int)
    requires |name| < KeySize && LabelShaped(p) && !Contains(name + ":", p)
    requires k >= 0 && Find(f, p) == k
    ensures Find(LJust(name + ":", KeySize) + f, p) == 30 + k
  {
    var pad := Spaces(KeySize - 1 - |name|);
    var key := name + ":";
    KeyColumn(name);
    FindPast(pad, f, p, k);
    FindPastColon(key, pad + f, p, |pad| + k);
    Regroup(key, pad, f);
  }

  /** Where load_table finds each label in a line write_table wrote. */
  lemma LineFinds(line: string, name: string, b: string, c: string, m: string, t: string, g: string)
    requires KeyOk(name)
    requires |b| == 2 && |c| == 4 && |m| == 4 && |t| == 22
    requires ColumnText(b) && ColumnText(c) && ColumnText(m)
    requires !Contains(t, LongestLabel)
    requires line == "  " + (LJust(name + ":", KeySize) + Fields(b, c, m, t, g))
    ensures Find(line, BatteryLabel) == 33 && Find(line, CurrentLabel) == 46
    ensures Find(line, MinLabel) == 68 && Find(line, LastLabel) == 86
    ensures Find(line, LongestLabel) == 124
  {
    var f := Fields(b, c, m, t, g);
    FindBattery(b, c, m, t, g);
    FindCurrent(b, c, m, t, g);
    FindMin(b, c, m, t, g);
    FindLast(b, c, m, t, g);
    FindLongest(b, c, m, t, g);
    LabelsShaped();
    assert BatteryLabel in Labels && CurrentLabel in Labels && MinLabel in Labels;
    assert LastLabel in Labels && LongestLabel in Labels;
    LineFind(name, f, BatteryLabel, 1);
    LineFind(name, f, CurrentLabel, 14);
    LineFind(name, f, MinLabel, 36);
    LineFind(name, f, LastLabel, 54);
    LineFind(name, f, LongestLabel, 92);
  }

  /** What load_table takes from the fixed columns of a line write_table wrote. */
  lemma LineSlices(line: string, name: string, b: string, c: string, m: string, t: string, g: string)
    requires |name| < KeySize
    requires |b| == 2 && |c| == 4 && |m| == 4 && |t| == 22
    requires line == "  " + (LJust(name + ":", KeySize) + Fields(b, c, m, t, g))
    ensures |line| == 146 + |g|
    ensures line[2..KeySize + 2] == LJust(name + ":", KeySize)
    ensures line[42..43] == b[1..] && line[61..65] == c && line[79..83] == m
    ensures line[99..121] == t && line[140..|line| - 6] == g
  {
    FieldsSlices(b, c, m, t, g);
    KeyColumn(name);
    ShiftSlices(line, LJust(name + ":", KeySize), Fields(b, c, m, t, g));
  }

  lemma ShiftSlices(line: string, key: string, f: string)
    requires |key| == KeySize && |f| >= 114
    requires line == "  " + (key + f)
    ensures line[2..KeySize + 2] == key
    ensures line[42..43] == f[10..11] && line[61..65] == f[29..33] && line[79..83] == f[47..51]
    ensures line[99..121] == f[67..89] && line[140..|line| - 6] == f[108..|f| - 6]
  {
  }

  /** The name column read back: trailing padding and the ':' removed. */
  lemma KeyBack(name: string)
    requires |name| < KeySize
    ensures PySlice(RStrip(LJust(name + ":", KeySize)), 0, -1) == name
  {
    KeyColumn(name);
    RStripPadded(name + ":", KeySize - 1 - |name|);
    assert PySlice(name + ":", 0, -1) == (name + ":")[0..|name|];
  }

  /** DecodeLine on a line whose labels sit where write_table puts them. */
  lemma DecodeLaidOut(line: string, parse: string -> Option<int>, name: string, r: Record)
    requires |line| >= 146
    requires PySlice(RStrip(line[2..KeySize + 2]), 0, -1) == name
    requires Find(line, BatteryLabel) == 33 && BatteryOf(line[42..43]) == Some(r.battery)
    requires Find(line, CurrentLabel) == 46 && SignalOf(LStrip(line[61..65])) == Some(r.signal)
    requires Find(line, MinLabel) == 68 && SignalOf(LStrip(line[79..83])) == Some(r.minSignal)
    requires Find(line, LastLabel) == 86 && parse(LStrip(line[99..121])) == Some(r.updated)
    requires Find(line, LongestLabel) == 124 && ParseInt(line[140..|line| - 6]) == Some(r.longest)
    ensures DecodeLine(line, parse) == Some((name, r))
  {
  }

  /** load_table reads back the line write_table writes. */
  lemma LineRoundTrip(name: string, r: Record, fmt: int -> string, parse: string -> Option<int>)
    requires KeyOk(name) && Writable(r, fmt, parse)
    ensures DecodeLine(EncodeLine(name, r, fmt), parse) == Some((name, r))
  {
    var b := BatteryText(r.battery);
    var c := SignalText(r.signal);
    var m := SignalText(r.minSignal);
    var t := fmt(r.updated);
    var g := IntToStr(r.longest);
    BatteryBack(r.battery);
    SignalBack(r.signal);
    SignalBack(r.minSignal);
    var line := EncodeLine(name, r, fmt);
    LineFinds(line, name, b, c, m, t, g);
    LineSlices(line, name, b, c, m, t, g);
    KeyBack(name);
    LStripSpaces(0, t);
    assert Spaces(0) + t == t;
    IntRoundTrip(r.longest);
    DecodeLaidOut(line, parse, name, r);
  }

  /** A line write_table wrote is never skipped as blank. */
  lemma EncodedNotBlank(name: string, r: Record, fmt: int -> string)
    requires |name| < KeySize
    ensures !IsBlank(EncodeLine(name, r, fmt))
  {
    var f := Fields(BatteryText(r.battery), SignalText(r.signal), SignalText(r.minSignal), fmt(r.updated), IntToStr(r.longest));
    ColonShows(name, LJust(name + ":", KeySize), f);
  }

  /** The ':' after the name is not whitespace. */
  lemma ColonShows(name: string, key: string, f: string)
    requires |name| < KeySize && key == LJust(name + ":", KeySize)
    ensures !IsBlank("  " + (key + f))
  {
    assert key[|name|] == (name + ":")[|name|] == ':';
    assert ("  " + (key + f))[2 + |name|] == ':';
  }

  /** Reading lines that each decode to (names[i], m[names[i]]) into acc adds
      exactly those entries. */
  lemma {:induction false} DecodeAll(acc: map<string, Record>, m: map<string, Record>, names: seq<string>,
                                     lines: seq<string>, parse: string -> Option<int>)
    requires forall n :: n in names ==> n in m
    requires ReadsAs(lines, names, m, parse)
    ensures DecodeInto(acc, lines, parse) == Some(acc + (map n | n in names :: m[n]))
    decreases |names|
  {
    if names == [] {
      assert acc + (map n | n in names :: m[n]) == acc;
    } else {
      var first := names[0];
      DecodeFirst(acc, m, names, lines, parse);
      DecodeAll(acc[first := m[first]], m, names[1..], lines[1..], parse);
      AddFirst(acc, m, names);
    }
  }

  /** Each line is readable and reads as the entry of the name at its index. */
  predicate ReadsAs(lines: seq<string>, names: seq<string>, m: map<string, Record>, parse: string -> Option<int>)
    requires forall n :: n in names ==> n in m
  {
    |lines| == |names| &&
    forall i :: 0 <= i < |lines| ==> !IsBlank(lines[i]) && DecodeLine(lines[i], parse) == Some((names[i], m[names[i]]))
  }

  /** Reading the first line, and what is left to read. */
  lemma DecodeFirst(acc: map<string, Record>, m: map<string, Record>, names: seq<string>,
                    lines: seq<string>, parse: string -> Option<int>)
    requires names != [] && forall n :: n in names ==> n in m
    requires ReadsAs(lines, names, m, parse)
    ensures DecodeInto(acc, lines, parse) == DecodeInto(acc[names[0] := m[names[0]]], lines[1..], parse)
    ensures forall n :: n in names[1..] ==> n in m
    ensures ReadsAs(lines[1..], names[1..], m, parse)
  {
    DecodeStep(acc, lines, parse, (names[0], m[names[0]]));
    ReadsAsTail(m, names, lines, parse);
  }

  lemma ReadsAsTail(m: map<string, Record>, names: seq<string>, lines: seq<string>, parse: string -> Option<int>)
    requires names != [] && forall n :: n in names ==> n in m
    requires ReadsAs(lines, names, m, parse)
    ensures forall n :: n in names[1..] ==> n in m
    ensures ReadsAs(lines[1..], names[1..], m, parse)
  {
    forall i | 0 <= i < |lines| - 1
      ensures !IsBlank(lines[1..][i]) && DecodeLine(lines[1..][i], parse) == Some((names[1..][i], m[names[1..][i]]))
    {
      assert lines[1..][i] == lines[i + 1] && names[1..][i] == names[i + 1];
    }
  }

  /** A readable first line adds its entry and reading goes on. */
  lemma DecodeStep(acc: map<string, Record>, lines: seq<string>, parse: string -> Option<int>, e: (string, Record))
    requires lines != [] && !IsBlank(lines[0]) && DecodeLine(lines[0], parse) == Some(e)
    ensures DecodeInto(acc, lines, parse) == DecodeInto(acc[e.0 := e.1], lines[1..], parse)
  {
  }

  lemma AddFirst(acc: map<string, Record>, m: map<string, Record>, names: seq<string>)
    requires names != [] && forall n :: n in names ==> n in m
    ensures acc[names[0] := m[names[0]]] + (map n | n in names[1..] :: m[n]) == acc + (map n | n in names :: m[n])
  {
  }

  /** Every line write_table writes reads back as its own entry. */
  lemma EachLineReadsBack(m: map<string, Record>, names: seq<string>, fmt: int -> string, parse: string -> Option<int>)
    requires forall n :: n in names ==> n in m && KeyOk(n) && Writable(m[n], fmt, parse)
    ensures forall i :: 0 <= i < |names| ==>
      var line := EncodeTable(m, names, fmt)[i];
      !IsBlank(line) && DecodeLine(line, parse) == Some((names[i], m[names[i]]))
  {
    forall i | 0 <= i < |names|
      ensures !IsBlank(EncodeLine(names[i], m[names[i]], fmt))
      ensures DecodeLine(EncodeLine(names[i], m[names[i]], fmt), parse) == Some((names[i], m[names[i]]))
    {
      LineRoundTrip(names[i], m[names[i]], fmt, parse);
      EncodedNotBlank(names[i], m[names[i]], fmt);
    }
  }

  lemma AllKeys(m: map<string, Record>, names: seq<string>)
    requires forall n :: n in names <==> n in m
    ensures map[] + (map n | n in names :: m[n]) == m
  {
  }

  /** What write_table writes, load_table reads back as the same table. */
  lemma TableRoundTrip(m: map<string, Record>, fmt: int -> string, parse: string -> Option<int>)
    requires forall n :: n in m ==> KeyOk(n) && Writable(m[n], fmt, parse)
    ensures DecodeTable(EncodeTable(m, SortedOf(m.Keys), fmt), parse) == Some(m)
  {
    var names := SortedOf(m.Keys);
    EachLineReadsBack(m, names, fmt, parse);
    DecodeAll(map[], m, names, EncodeTable(m, names, fmt), parse);
    AllKeys(m, names);
  }

  /** Blank lines anywhere in the file do not change what is loaded. */
  lemma {:induction false} BlankLineSkipped(acc: map<string, Record>, lines: seq<string>, i: nat, parse: string -> Option<int>)
    requires i < |lines| && IsBlank(lines[i])
    ensures DecodeInto(acc, lines, parse) == DecodeInto(acc, lines[..i] + lines[i + 1..], parse)
    decreases i
  {
    var rest := lines[..i] + lines[i + 1..];
    if i == 0 {
      assert rest == lines[1..];
    } else {
      assert rest[0] == lines[0] && rest[1..] == lines[1..][..i - 1] + lines[1..][i..];
      if !IsBlank(lines[0]) {
        var entry := DecodeLine(lines[0], parse);
        if entry.Some? {
          BlankLineSkipped(acc[entry.value.0 := entry.value.1], lines[1..], i - 1, parse);
        }
      } else {
        BlankLineSkipped(acc, lines[1..], i - 1, parse);
      }
    }
  }
}
