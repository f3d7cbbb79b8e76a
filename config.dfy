// The configuration file: "key = value" lines, looked up one key at a time,
// and the typed settings read_config_variables takes from it in a fixed
// order, giving up at the first key whose value is invalid.
module Config {
  import opened Maybe
  import opened Text
  import opened Numerals

  /** The position of the first '=' in a line, or -1. */
  function EqualsAt(line: string): (r: int)
    ensures -1 <= r < |line|
    ensures r >= 0 ==> line[r] == '=' && forall i :: 0 <= i < r ==> line[i] != '='
    ensures r < 0 ==> forall i :: 0 <= i < |line| ==> line[i] != '='
  {
    var r := Find(line, "=");
    assert forall i :: 0 <= i < |line| ==> (MatchAt(line, "=", i) <==> line[i] == '=');
    r
  }

  /** The key of a line: the text before its first '=', trailing blanks removed. */
  function Tag(line: string): string
    requires EqualsAt(line) >= 0
  {
    RStripChar(line[..EqualsAt(line)], ' ')
  }

  /** The value of a line: the text after its first '=', trailing newlines
      removed, then leading and trailing blanks. */
  function EntryValue(line: string): string
    requires EqualsAt(line) >= 0
  {
    RStripChar(LStripChar(RStripChar(line[EqualsAt(line) + 1..], '\n'), ' '), ' ')
  }

  /** The line is an entry for key. */
  predicate Matches(line: string, key: string) {
    EqualsAt(line) >= 0 && Tag(line) == key
  }

  /** The value the file gives key: that of the LAST line that is an entry for it. */
  function Entry(lines: seq<string>, key: string): Option<string> {
    if lines == [] then None
    else if Matches(lines[|lines| - 1], key) then Some(EntryValue(lines[|lines| - 1]))
    else Entry(lines[..|lines| - 1], key)
  }

  /** No entry for key exactly when no line matches it. */
  lemma {:induction false} EntryMissing(lines: seq<string>, key: string)
    ensures Entry(lines, key).None? <==> forall i :: 0 <= i < |lines| ==> !Matches(lines[i], key)
    decreases |lines|
  {
    if lines != [] {
      var init := lines[..|lines| - 1];
      EntryMissing(init, key);
      assert forall i :: 0 <= i < |init| ==> lines[i] == init[i];
    }
  }

  /** A value found for key comes from a matching line after which no line matches. */
  lemma EntryIsLastMatch(lines: seq<string>, key: string) returns (i: nat)
    requires Entry(lines, key).Some?
    ensures i < |lines| && Matches(lines[i], key) && Entry(lines, key) == Some(EntryValue(lines[i]))
    ensures forall j :: i < j < |lines| ==> !Matches(lines[j], key)
    decreases |lines|
  {
    var last := |lines| - 1;
    EntryLast(lines, key);
    if Matches(lines[last], key) {
      i := last;
    } else {
      var init := lines[..last];
      i := EntryIsLastMatch(init, key);
      NoMatchAfter(lines, init, key, i);
    }
  }

  /** The value of key is read off the last line when it matches, else from the lines before. */
  lemma EntryLast(lines: seq<string>, key: string)
    requires lines != []
    ensures Matches(lines[|lines| - 1], key) ==> Entry(lines, key) == Some(EntryValue(lines[|lines| - 1]))
    ensures !Matches(lines[|lines| - 1], key) ==> Entry(lines, key) == Entry(lines[..|lines| - 1], key)
  {
  }

  /** A match at i with none after it among all but the last line, and a last
      line that does not match: none after it among all the lines. */
  lemma NoMatchAfter(lines: seq<string>, init: seq<string>, key: string, i: nat)
    requires lines != [] && init == lines[..|lines| - 1]
    requires i < |init| && !Matches(lines[|lines| - 1], key)
    requires forall j :: i < j < |init| ==> !Matches(init[j], key)
    ensures lines[i] == init[i]
    ensures forall j :: i < j < |lines| ==> !Matches(lines[j], key)
  {
    forall j | i < j < |lines| ensures !Matches(lines[j], key) {
      if j < |init| {
        assert lines[j] == init[j];
      }
    }
  }

  /** Lines after the last entry for key do not change its value. */
  lemma {:induction false} EntryIgnoresOthers(lines: seq<string>, more: seq<string>, key: string)
    requires forall i :: 0 <= i < |more| ==> !Matches(more[i], key)
    ensures Entry(lines + more, key) == Entry(lines, key)
    decreases |more|
  {
    if more == [] {
      assert lines + more == lines;
    } else {
      var init := more[..|more| - 1];
      assert (lines + more)[..|lines + more| - 1] == lines + init;
      assert (lines + more)[|lines + more| - 1] == more[|more| - 1];
      assert forall i :: 0 <= i < |init| ==> init[i] == more[i];
      EntryIgnoresOthers(lines, init, key);
    }
  }

  /** get_config_string: scan every line, keep the value of the last entry
      for key; "" when there is none. An unreadable file reads nothing. */
  method GetConfigString(file: Option<seq<string>>, key: string) returns (value: string, found: bool, readable: bool)
    ensures readable == file.Some?
    ensures found == (file.Some? && Entry(file.value, key).Some?)
    ensures value == if found then Entry(file.value, key).value else ""
  {
    found := false;
    value := "";
    if file.None? {
      readable := false;
      return;
    }
    readable := true;
    var lines := file.value;
    for i := 0 to |lines|
      invariant found == Entry(lines[..i], key).Some?
      invariant value == if found then Entry(lines[..i], key).value else ""
    {
      EntryStep(lines, key, i);
      var ptr := EqualsAt(lines[i]);
      if ptr >= 0 {
        var tag := Tag(lines[i]);
        if tag == key {
          value := EntryValue(lines[i]);
          found := true;
        }
      }
    }
    assert lines[..|lines|] == lines;
  }

  lemma EntryStep(lines: seq<string>, key: string, i: nat)
    requires i < |lines|
    ensures Entry(lines[..i + 1], key) == if Matches(lines[i], key) then Some(EntryValue(lines[i])) else Entry(lines[..i], key)
  {
    assert lines[..i + 1][..i] == lines[..i];
  }

  // ---------------------------------------------------------------------
  // Typed settings.

  /** get_config_truefalse's check: exactly "True" or "False". */
  function FlagOf(v: string): (r: Option<bool>)
    ensures r == Some(true) <==> v == "True"
    ensures r == Some(false) <==> v == "False"
  {
    if v == "True" then Some(true) else if v == "False" then Some(false) else None
  }

  datatype Kind = AsString | AsFlag | AsInteger | AsList

  /** A setting as read_config_variables stores it. A key whose value is
      invalid is still assigned: the wrappers hand back "" then. */
  datatype Setting = Str(text: string) | Flag(flag: bool) | Int(number: int) | List(items: seq<string>)

  /** The keys read_config_variables looks up, in its order, with their wrappers. */
  const Keys: seq<(string, Kind)> := [
    ("UAID", AsString), ("SECRET_KEY", AsString),
    ("color_enabled", AsFlag), ("logging", AsFlag), ("log_raw", AsFlag), ("verbose", AsFlag),
    ("mid_battery", AsInteger), ("min_battery", AsInteger), ("min_signal", AsInteger),
    ("max_age_minutes", AsInteger), ("max_alerts", AsInteger),
    ("send_status_emails", AsFlag), ("email_addr_list", AsList),
    ("email_server", AsString), ("email_account_name", AsString), ("email_account_pw", AsString)]

  /** One wrapper: the setting it returns and whether the file is still valid. */
  function Typed(file: Option<seq<string>>, key: string, kind: Kind): (Setting, bool) {
    if file.None? then (Str(""), false)
    else
      var v := Entry(file.value, key).GetOr("");
      match kind
      case AsString => (Str(v), true)
      case AsFlag => if FlagOf(v).Some? then (Flag(FlagOf(v).value), true) else (Str(""), false)
      case AsInteger => if ParseInt(v).Some? then (Int(ParseInt(v).value), true) else (Str(""), false)
      case AsList => (List(Split(v, ',')), true)
  }

  /** get_config_truefalse, get_config_integer and get_config_list on top of
      get_config_string. */
  method GetConfig(file: Option<seq<string>>, key: string, kind: Kind) returns (setting: Setting, valid: bool)
    ensures (setting, valid) == Typed(file, key, kind)
  {
    var v, found, readable := GetConfigString(file, key);
    setting, valid := Str(""), readable;
    if valid {
      match kind
      case AsString =>
        setting := Str(v);
      case AsFlag =>
        if v == "True" {
          setting := Flag(true);
        } else if v == "False" {
          setting := Flag(false);
        } else {
          valid := false;
        }
      case AsInteger =>
        var n := ParseInt(v);
        if n.Some? {
          setting := Int(n.value);
        } else {
          valid := false;
        }
      case AsList =>
        setting := List(Split(v, ','));
    }
  }

  /** The settings after looking up keys in order with read, and whether
      every lookup so far was valid; after the first invalid key nothing more
      is read. */
  function ReadKeys(read: (string, Kind) -> (Setting, bool), keys: seq<(string, Kind)>): (map<string, Setting>, bool) {
    if keys == [] then (map[], true)
    else
      var (settings, valid) := ReadKeys(read, keys[..|keys| - 1]);
      var (key, kind) := keys[|keys| - 1];
      if !valid then (settings, valid)
      else
        var (s, ok) := read(key, kind);
        (settings[key := s], ok)
  }

  /** The wrappers over one file, as a lookup. */
  function Reader(file: Option<seq<string>>): (string, Kind) -> (Setting, bool) {
    (key: string, kind: Kind) => Typed(file, key, kind)
  }

  /** The settings read_config_variables assigns from file, and whether the file was valid. */
  function Configure(file: Option<seq<string>>, keys: seq<(string, Kind)>): (map<string, Setting>, bool) {
    ReadKeys(Reader(file), keys)
  }

  /** read_config_variables. */
  method ReadConfig(file: Option<seq<string>>) returns (settings: map<string, Setting>, valid: bool)
    ensures (settings, valid) == Configure(file, Keys)
  {
    settings, valid := map[], true;
    for i := 0 to |Keys|
      invariant (settings, valid) == Configure(file, Keys[..i])
    {
      assert Keys[..i + 1][..i] == Keys[..i];
      if valid {
        var s;
        s, valid := GetConfig(file, Keys[i].0, Keys[i].1);
        settings := settings[Keys[i].0 := s];
      }
    }
    assert Keys[..|Keys|] == Keys;
  }

  /** The key names are distinct. */
  predicate Distinct(keys: seq<(string, Kind)>) {
    forall i, j :: 0 <= i < j < |keys| ==> keys[i].0 != keys[j].0
  }

  /** The lookups end valid exactly when every key reads well. */
  lemma {:induction false} ReadKeysValid(read: (string, Kind) -> (Setting, bool), keys: seq<(string, Kind)>)
    ensures ReadKeys(read, keys).1 <==> forall i :: 0 <= i < |keys| ==> read(keys[i].0, keys[i].1).1
    decreases |keys|
  {
    if keys != [] {
      var init := keys[..|keys| - 1];
      ReadKeysValid(read, init);
      assert forall i :: 0 <= i < |init| ==> keys[i] == init[i];
    }
  }

  /** When the lookups end valid, every key holds its own setting and nothing else is set. */
  lemma {:induction false} ReadKeysAllGood(read: (string, Kind) -> (Setting, bool), keys: seq<(string, Kind)>)
    requires Distinct(keys)
    requires ReadKeys(read, keys).1
    ensures ReadKeys(read, keys).0.Keys == (set i | 0 <= i < |keys| :: keys[i].0)
    ensures forall i :: 0 <= i < |keys| ==> ReadKeys(read, keys).0[keys[i].0] == read(keys[i].0, keys[i].1).0
    decreases |keys|
  {
    if keys != [] {
      var init := keys[..|keys| - 1];
      var last := keys[|keys| - 1];
      assert ReadKeys(read, init).1;
      ReadKeysAllGood(read, init);
      assert forall i :: 0 <= i < |init| ==> keys[i] == init[i];
      assert (set i | 0 <= i < |keys| :: keys[i].0) == (set i | 0 <= i < |init| :: init[i].0) + {last.0};
    }
  }

  /** Once key b reads invalid, the lookups stop there: later keys are
      neither looked up nor assigned, and b itself holds what its lookup gave. */
  lemma {:induction false} ReadKeysStops(read: (string, Kind) -> (Setting, bool), keys: seq<(string, Kind)>, b: nat)
    requires b < |keys|
    requires !read(keys[b].0, keys[b].1).1
    requires ReadKeys(read, keys[..b]).1
    ensures ReadKeys(read, keys) == (ReadKeys(read, keys[..b]).0[keys[b].0 := read(keys[b].0, keys[b].1).0], false)
    decreases |keys|
  {
    if |keys| == b + 1 {
      assert keys[..|keys| - 1] == keys[..b];
    } else {
      var init := keys[..|keys| - 1];
      assert init[..b] == keys[..b] && init[b] == keys[b];
      ReadKeysStops(read, init, b);
    }
  }

  /** The file ends valid exactly when every key reads well. */
  lemma ConfigureValid(file: Option<seq<string>>, keys: seq<(string, Kind)>)
    ensures Configure(file, keys).1 <==> forall i :: 0 <= i < |keys| ==> Typed(file, keys[i].0, keys[i].1).1
  {
    ReadKeysValid(Reader(file), keys);
  }

  /** When the file ends valid, exactly the keys looked up are set, each to its own setting. */
  lemma ConfigureAllGood(file: Option<seq<string>>, keys: seq<(string, Kind)>)
    requires Distinct(keys)
    requires Configure(file, keys).1
    ensures Configure(file, keys).0.Keys == (set i | 0 <= i < |keys| :: keys[i].0)
    ensures forall i :: 0 <= i < |keys| ==> Configure(file, keys).0[keys[i].0] == Typed(file, keys[i].0, keys[i].1).0
  {
    ReadKeysAllGood(Reader(file), keys);
  }

  /** Once key b is invalid, reading stops there: later keys are neither
      looked up nor assigned, and b itself holds "". */
  lemma ConfigureStops(file: Option<seq<string>>, keys: seq<(string, Kind)>, b: nat)
    requires b < |keys|
    requires !Typed(file, keys[b].0, keys[b].1).1
    requires Configure(file, keys[..b]).1
    ensures Configure(file, keys) == (Configure(file, keys[..b]).0[keys[b].0 := Str("")], false)
  {
    ReadKeysStops(Reader(file), keys, b);
  }

  /** An unreadable file: UAID is set to "" and nothing else is read. */
  lemma UnreadableFile()
    ensures Configure(None, Keys) == (map["UAID" := Str("")], false)
  {
    assert Keys[..0] == [];
    ConfigureStops(None, Keys, 0);
  }

  // ---------------------------------------------------------------------
  // Writing an entry and reading it back.

  /** "key = value" as a line of the file. */
  function EntryLine(key: string, v: string): string {
    (key + " ") + "=" + (" " + v + "\n")
  }

  /** A key that stays on its line, holds no '=' and does not end in a space. */
  predicate KeyWritable(key: string) {
    SingleLine(key) && '=' !in key && (key == [] || key[|key| - 1] != ' ')
  }

  /** A value that stays on its line and has no space at either end. */
  predicate ValueWritable(v: string) {
    SingleLine(v) && (v == [] || (v[0] != ' ' && v[|v| - 1] != ' '))
  }

  lemma RStripOne(s: string, c: char)
    requires s == [] || s[|s| - 1] != c
    ensures RStripChar(s + [c], c) == s
  {
    assert (s + [c])[..|s + [c]| - 1] == s;
  }

  lemma LStripOne(s: string, c: char)
    requires s == [] || s[0] != c
    ensures LStripChar([c] + s, c) == s
  {
    assert ([c] + s)[1..] == s;
  }

  /** The line written for key reads back as an entry for key with value v. */
  lemma EntryLineReadsBack(key: string, v: string)
    requires KeyWritable(key) && ValueWritable(v)
    ensures Matches(EntryLine(key, v), key) && EntryValue(EntryLine(key, v)) == v
  {
    var line := EntryLine(key, v);
    FindAfter(key + " ", "=", " " + v + "\n");
    assert line[..|key| + 1] == key + [' '];
    RStripOne(key, ' ');
    assert line[|key| + 2..] == [' '] + v + ['\n'];
    RStripOne([' '] + v, '\n');
    LStripOne(v, ' ');
    assert RStripChar(v, ' ') == v;
  }

  /** A value appended as the last entry for key is the one read. */
  lemma LastWriteWins(lines: seq<string>, key: string, v: string)
    requires KeyWritable(key) && ValueWritable(v)
    ensures Entry(lines + [EntryLine(key, v)], key) == Some(v)
  {
    var line := EntryLine(key, v);
    EntryLineReadsBack(key, v);
    EntryStep(lines + [line], key, |lines|);
    assert (lines + [line])[..|lines| + 1] == lines + [line];
  }

  /** True and False round-trip through get_config_truefalse. */
  lemma FlagRoundTrip(lines: seq<string>, key: string, b: bool)
    requires KeyWritable(key)
    ensures Typed(Some(lines + [EntryLine(key, if b then "True" else "False")]), key, AsFlag) == (Flag(b), true)
  {
    LastWriteWins(lines, key, if b then "True" else "False");
  }

  /** Integers written in decimal round-trip through get_config_integer. */
  lemma IntegerRoundTrip(lines: seq<string>, key: string, n: int)
    requires KeyWritable(key)
    ensures Typed(Some(lines + [EntryLine(key, IntToStr(n))]), key, AsInteger) == (Int(n), true)
  {
    var v := IntToStr(n);
    assert v[|v| - 1] == '-' || IsDigit(v[|v| - 1]);
    LastWriteWins(lines, key, v);
    IntRoundTrip(n);
  }

  /** A comma-joined list round-trips through get_config_list. */
  lemma ListRoundTrip(lines: seq<string>, key: string, items: seq<string>)
    requires KeyWritable(key) && |items| >= 1
    requires ValueWritable(Join(items, ','))
    requires forall i :: 0 <= i < |items| ==> ',' !in items[i]
    ensures Typed(Some(lines + [EntryLine(key, Join(items, ','))]), key, AsList) == (List(items), true)
  {
    LastWriteWins(lines, key, Join(items, ','));
    SplitJoin(items, ',');
  }

  /** Splitting a join on a separator none of the pieces contains gives the pieces back. */
  lemma {:induction false} SplitJoin(pieces: seq<string>, c: char)
    requires |pieces| >= 1
    requires forall i :: 0 <= i < |pieces| ==> c !in pieces[i]
    ensures Split(Join(pieces, c), c) == pieces
    decreases |pieces|, |pieces[0]|
  {
    if |pieces| == 1 {
      SplitPlain(pieces[0], c);
    } else if pieces[0] == [] {
      var rest := Join(pieces[1..], c);
      assert Join(pieces, c) == [c] + rest;
      assert ([c] + rest)[1..] == rest;
      SplitJoin(pieces[1..], c);
      assert pieces == [""] + pieces[1..];
    } else {
      var p := pieces[0];
      var tail := pieces[1..];
      var shorter := [p[1..]] + tail;
      assert shorter[1..] == tail;
      assert forall i :: 0 <= i < |shorter| ==> c !in shorter[i] by {
        assert forall i :: 1 <= i < |shorter| ==> shorter[i] == pieces[i];
      }
      SplitJoin(shorter, c);
      assert Join(pieces, c) == [p[0]] + Join(shorter, c);
      assert ([p[0]] + Join(shorter, c))[1..] == Join(shorter, c);
      assert [p[0]] + p[1..] == p;
      assert pieces == [p] + tail;
    }
  }

  /** Text without the separator splits into itself. */
  lemma {:induction false} SplitPlain(s: string, c: char)
    requires c !in s
    ensures Split(s, c) == [s]
    decreases |s|
  {
    if s != [] {
      SplitPlain(s[1..], c);
      assert [s[0]] + s[1..] == s;
    }
  }
}
