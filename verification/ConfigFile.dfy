// /etc/ds4-translator.conf: write_config and the read_*_config functions of src/main.cpp.
module ConfigFile {
  import opened Controller
  import opened LineProtocol

  datatype Config = Config(
    kind: ControllerType, ds4Backend: Backend, dualSenseBackend: Backend, hideMethod: HideMethod,
    ds4Name: string, dualSenseName: string)

  function KindName(t: ControllerType): string {
    match t
    case Ds4 => "ds4"
    case DualSense => "dualsense"
    case Hidden => "hidden"
    case Passthrough => "none"
  }

  function BackendName(b: Backend): string {
    match b
    case FunctionFs => "functionfs"
    case Uhid => "uhid"
  }

  function HideMethodName(m: HideMethod): string {
    match m
    case Unbind => "unbind"
    case Legacy => "legacy"
  }

  function NameLine(key: string, name: string): string {
    if name == "" then "" else key + name + "\n"
  }

  /** write_config: what the file holds afterwards. */
  function WriteConfig(c: Config): string {
    ("type=" + KindName(c.kind)) + "\n" +
    (("backend_ds4=" + BackendName(c.ds4Backend)) + "\n" +
     (("backend_dualsense=" + BackendName(c.dualSenseBackend)) + "\n" +
      (("hide_method=" + HideMethodName(c.hideMethod)) + "\n" +
       (NameLine("name_ds4=", c.ds4Name) + NameLine("name_dualsense=", c.dualSenseName)))))
  }

  // ----------------------------------------------------------------------------- reading

  /** The lines std::getline delivers. */
  function FileLines(text: string): seq<string> {
    Lines(text) + if Leftover(text) == "" then [] else [Leftover(text)]
  }

  predicate Trimmed(c: char, spaces: bool) {
    c == '\n' || c == '\r' || (spaces && c == ' ')
  }

  function TrimEnd(s: string, spaces: bool): string {
    if s != "" && Trimmed(s[|s| - 1], spaces) then TrimEnd(s[..|s| - 1], spaces) else s
  }

  function ParseKind(s: string): Option<ControllerType> {
    var v := TrimEnd(s, true);
    if v == "dualsense" then Some(DualSense)
    else if v == "ds4" then Some(Ds4)
    else if v == "none" then Some(Passthrough)
    else if v == "hidden" then Some(Hidden)
    else None
  }

  function ParseBackend(s: string): Option<Backend> {
    var v := TrimEnd(s, true);
    if v == "functionfs" then Some(FunctionFs) else if v == "uhid" then Some(Uhid) else None
  }

  function ParseHideMethod(s: string): Option<HideMethod> {
    var v := TrimEnd(s, true);
    if v == "unbind" then Some(Unbind) else if v == "legacy" then Some(Legacy) else None
  }

  /** Names keep their trailing spaces. */
  function ParseName(s: string): Option<string> {
    Some(TrimEnd(s, false))
  }

  /** The value of the first line that has the key and a value that parses. */
  function FirstValue<T>(lines: seq<string>, key: string, parse: string -> Option<T>): Option<T> {
    if lines == [] then None
    else if key <= lines[0] && parse(lines[0][|key|..]).Some? then parse(lines[0][|key|..])
    else FirstValue(lines[1..], key, parse)
  }

  /** All readers share this loop: open the file, take the first usable line, else the default. */
  method ReadKey<T>(file: Option<string>, key: string, parse: string -> Option<T>, default: T) returns (value: T)
    ensures value == Reading(file, key, parse, default)
  {
    if file.None? {
      return default;
    }
    var lines := FileLines(file.value);
    for i := 0 to |lines|
      invariant FirstValue(lines, key, parse) == FirstValue(lines[i..], key, parse)
    {
      if key <= lines[i] {
        var parsed := parse(lines[i][|key|..]);
        if parsed.Some? {
          return parsed.value;
        }
      }
    }
    value := default;
  }

  function Reading<T>(file: Option<string>, key: string, parse: string -> Option<T>, default: T): T {
    if file.None? then default
    else
      var found := FirstValue(FileLines(file.value), key, parse);
      if found.Some? then found.value else default
  }

  function ReadName(text: string, key: string): string {
    Reading(Some(text), key, ParseName, "")
  }

  // -------------------------------------------------------------------------- round trips

  lemma FirstLine(line: string, rest: string)
    requires '\n' !in line
    ensures FileLines(line + "\n" + rest) == [line] + FileLines(rest)
  {
    var text := line + "\n" + rest;
    assert text[..|line|] == line && text[|line|] == '\n';
    NewlineIsFirst(text, |line|);
    assert text[|line| + 1..] == rest;
  }

  /** A last line without a line break counts as well. */
  lemma UnfinishedLineCounts(line: string)
    requires '\n' !in line && line != ""
    ensures FileLines(line) == [line]
  {
  }

  function SettingLines(c: Config): (lines: seq<string>)
    ensures |lines| == 4
  {
    ["type=" + KindName(c.kind), "backend_ds4=" + BackendName(c.ds4Backend),
     "backend_dualsense=" + BackendName(c.dualSenseBackend), "hide_method=" + HideMethodName(c.hideMethod)]
  }

  function NameText(c: Config): string {
    NameLine("name_ds4=", c.ds4Name) + NameLine("name_dualsense=", c.dualSenseName)
  }

  lemma FourLines(a: string, b: string, c: string, d: string, rest: string)
    requires '\n' !in a && '\n' !in b && '\n' !in c && '\n' !in d
    ensures FileLines(a + "\n" + (b + "\n" + (c + "\n" + (d + "\n" + rest)))) == [a, b, c, d] + FileLines(rest)
  {
    hide FileLines;
    FirstLine(d, rest);
    FirstLine(c, d + "\n" + rest);
    FirstLine(b, c + "\n" + (d + "\n" + rest));
    FirstLine(a, b + "\n" + (c + "\n" + (d + "\n" + rest)));
  }

  /** Whatever the names contain, the four settings come first, one line each. */
  lemma SettingsComeFirst(c: Config)
    ensures FileLines(WriteConfig(c)) == SettingLines(c) + FileLines(NameText(c))
  {
    hide FileLines, KindName, BackendName, HideMethodName, NameLine;
    OneLineEach(c);
    FourLines("type=" + KindName(c.kind), "backend_ds4=" + BackendName(c.ds4Backend),
              "backend_dualsense=" + BackendName(c.dualSenseBackend), "hide_method=" + HideMethodName(c.hideMethod), NameText(c));
  }

  lemma OneLineEach(c: Config)
    ensures '\n' !in "type=" + KindName(c.kind)
    ensures '\n' !in "backend_ds4=" + BackendName(c.ds4Backend)
    ensures '\n' !in "backend_dualsense=" + BackendName(c.dualSenseBackend)
    ensures '\n' !in "hide_method=" + HideMethodName(c.hideMethod)
  {
  }

  lemma {:induction false} NotInSettings<T>(lines: seq<string>, more: seq<string>, key: string, parse: string -> Option<T>)
    requires forall i :: 0 <= i < |lines| ==> !(key <= lines[i])
    ensures FirstValue(lines + more, key, parse) == FirstValue(more, key, parse)
  {
    if lines == [] {
      assert lines + more == more;
    } else {
      assert (lines + more)[1..] == lines[1..] + more;
      NotInSettings(lines[1..], more, key, parse);
    }
  }

  /** The line with the key is found, behind lines that do not have it. */
  lemma Found<T>(before: seq<string>, key: string, value: string, after: seq<string>, parse: string -> Option<T>)
    requires forall i :: 0 <= i < |before| ==> !(key <= before[i])
    requires parse(value).Some?
    ensures FirstValue(before + [key + value] + after, key, parse) == parse(value)
  {
    assert before + [key + value] + after == before + ([key + value] + after);
    NotInSettings(before, [key + value] + after, key, parse);
    assert (key + value)[|key|..] == value;
  }

  /** A line with the key and an unusable value does not hide a usable one below it. */
  lemma BrokenLineIsSkipped<T>(before: seq<string>, key: string, broken: string, value: string, after: seq<string>, parse: string -> Option<T>)
    requires forall i :: 0 <= i < |before| ==> !(key <= before[i])
    requires parse(broken).None? && parse(value).Some?
    ensures FirstValue(before + [key + broken] + [key + value] + after, key, parse) == parse(value)
  {
    var rest := [key + value] + after;
    Found([], key, value, after, parse);
    assert [] + [key + value] + after == rest;
    assert (key + broken)[|key|..] == broken && ([key + broken] + rest)[1..] == rest;
    NotInSettings(before, [key + broken] + rest, key, parse);
    assert before + [key + broken] + [key + value] + after == before + ([key + broken] + rest);
  }

  /** Without the file, or without a usable line, there is the default. */
  lemma DefaultOtherwise<T>(file: Option<string>, key: string, parse: string -> Option<T>, default: T)
    requires file.Some? ==>
      forall line :: line in FileLines(file.value) ==> !(key <= line) || parse(line[|key|..]).None?
    ensures Reading(file, key, parse, default) == default
  {
    if file.Some? {
      NothingUsable(FileLines(file.value), key, parse);
    }
  }

  lemma {:induction false} NothingUsable<T>(lines: seq<string>, key: string, parse: string -> Option<T>)
    requires forall line :: line in lines ==> !(key <= line) || parse(line[|key|..]).None?
    ensures FirstValue(lines, key, parse).None?
  {
    if lines != [] {
      assert lines[0] in lines;
      NothingUsable(lines[1..], key, parse);
    }
  }

  lemma KeysDiffer(key: string, line: string, i: nat)
    requires i < |key| && i < |line| && key[i] != line[i]
    ensures !(key <= line)
  {
  }

  /** No setting's line can be taken for a later key's. */
  lemma SettingKeys(c: Config)
    ensures var l := SettingLines(c);
      && !("backend_ds4=" <= l[0])
      && !("backend_dualsense=" <= l[0]) && !("backend_dualsense=" <= l[1])
      && !("hide_method=" <= l[0]) && !("hide_method=" <= l[1]) && !("hide_method=" <= l[2])
      && forall i :: 0 <= i < 4 ==> !("name_ds4=" <= l[i]) && !("name_dualsense=" <= l[i])
  {
    hide KindName, BackendName, HideMethodName;
    var l := SettingLines(c);
    KeysDiffer("backend_ds4=", l[0], 0);
    KeysDiffer("backend_dualsense=", l[0], 0);
    KeysDiffer("backend_dualsense=", l[1], 9);
    KeysDiffer("hide_method=", l[0], 0);
    KeysDiffer("hide_method=", l[1], 0);
    KeysDiffer("hide_method=", l[2], 0);
    assert l[0][0] == 't' && l[1][0] == 'b' && l[2][0] == 'b' && l[3][0] == 'h';
  }

  lemma SettingValues(c: Config)
    ensures ParseKind(KindName(c.kind)) == Some(c.kind)
    ensures ParseBackend(BackendName(c.ds4Backend)) == Some(c.ds4Backend)
    ensures ParseBackend(BackendName(c.dualSenseBackend)) == Some(c.dualSenseBackend)
    ensures ParseHideMethod(HideMethodName(c.hideMethod)) == Some(c.hideMethod)
  {
  }

  /** Line ends and spaces somebody may have left behind a value. */
  predicate IsBlank(s: string) {
    forall i :: 0 <= i < |s| ==> s[i] == ' ' || s[i] == '\r' || s[i] == '\n'
  }

  lemma {:induction false} BlanksGo(v: string, blank: string)
    requires IsBlank(blank) && (v == "" || !Trimmed(v[|v| - 1], true))
    ensures TrimEnd(v + blank, true) == v
    decreases |blank|
  {
    if blank == "" {
      assert v + blank == v;
    } else {
      assert (v + blank)[..|v + blank| - 1] == v + blank[..|blank| - 1];
      BlanksGo(v, blank[..|blank| - 1]);
    }
  }

  /** The words of the file, as an editor may leave them. */
  lemma WordsAreRead(blank: string)
    requires IsBlank(blank)
    ensures ParseKind("ds4" + blank) == Some(Ds4) && ParseKind("dualsense" + blank) == Some(DualSense)
    ensures ParseKind("hidden" + blank) == Some(Hidden) && ParseKind("none" + blank) == Some(Passthrough)
    ensures ParseBackend("functionfs" + blank) == Some(FunctionFs) && ParseBackend("uhid" + blank) == Some(Uhid)
    ensures ParseHideMethod("unbind" + blank) == Some(Unbind) && ParseHideMethod("legacy" + blank) == Some(Legacy)
  {
    hide TrimEnd;
    BlanksGo("ds4", blank);
    BlanksGo("dualsense", blank);
    BlanksGo("hidden", blank);
    BlanksGo("none", blank);
    BlanksGo("functionfs", blank);
    BlanksGo("uhid", blank);
    BlanksGo("unbind", blank);
    BlanksGo("legacy", blank);
  }

  lemma SettingAt<T>(c: Config, i: nat, key: string, value: string, parse: string -> Option<T>, default: T)
    requires i < 4 && SettingLines(c)[i] == key + value && parse(value).Some?
    requires forall k :: 0 <= k < i ==> !(key <= SettingLines(c)[k])
    ensures Reading(Some(WriteConfig(c)), key, parse, default) == parse(value).value
  {
    hide FileLines, SettingLines;
    SettingsComeFirst(c);
    var l, more := SettingLines(c), FileLines(NameText(c));
    assert l + more == l[..i] + [key + value] + (l[i + 1..] + more);
    Found(l[..i], key, value, l[i + 1..] + more, parse);
  }

  /** Type, backends and hide method read back as written, whatever the names are. */
  lemma SettingsRoundTrip(c: Config, k: ControllerType, b: Backend, m: HideMethod)
    ensures var file := Some(WriteConfig(c));
      && Reading(file, "type=", ParseKind, k) == c.kind
      && Reading(file, "backend_ds4=", ParseBackend, b) == c.ds4Backend
      && Reading(file, "backend_dualsense=", ParseBackend, b) == c.dualSenseBackend
      && Reading(file, "hide_method=", ParseHideMethod, m) == c.hideMethod
  {
    hide WriteConfig, Reading, KindName, BackendName, HideMethodName, ParseKind, ParseBackend, ParseHideMethod;
    SettingKeys(c);
    SettingValues(c);
    SettingAt(c, 0, "type=", KindName(c.kind), ParseKind, k);
    SettingAt(c, 1, "backend_ds4=", BackendName(c.ds4Backend), ParseBackend, b);
    SettingAt(c, 2, "backend_dualsense=", BackendName(c.dualSenseBackend), ParseBackend, b);
    SettingAt(c, 3, "hide_method=", HideMethodName(c.hideMethod), ParseHideMethod, m);
  }

  /** What read_name_config can give back at all: one line, no carriage return at its end. */
  predicate Storable(name: string) {
    '\n' !in name && (name != "" ==> name[|name| - 1] != '\r')
  }

  lemma {:induction false} TrimEndShape(s: string, spaces: bool)
    ensures TrimEnd(s, spaces) <= s
    ensures TrimEnd(s, spaces) == s <==> s == "" || !Trimmed(s[|s| - 1], spaces)
  {
    if s != "" && Trimmed(s[|s| - 1], spaces) {
      TrimEndShape(s[..|s| - 1], spaces);
    }
  }

  /** The first line a name takes up, and the lines after it. */
  lemma FirstNameLine(key: string, name: string, after: string) returns (first: string, rest: seq<string>)
    requires '\n' !in key && name != ""
    ensures '\n' !in first && first <= name && (first == name <==> '\n' !in name)
    ensures FileLines(NameLine(key, name) + after) == [key + first] + rest
    ensures '\n' !in name ==> rest == FileLines(after)
  {
    hide FileLines, Newline;
    if '\n' !in name {
      first, rest := name, FileLines(after);
      FirstLine(key + name, after);
      assert NameLine(key, name) + after == key + name + "\n" + after;
    } else {
      var n := Newline(name);
      var tail := name[n + 1..] + "\n" + after;
      first, rest := name[..n], FileLines(tail);
      FirstLine(key + first, tail);
      assert name == first + "\n" + name[n + 1..];
      assert NameLine(key, name) + after == key + first + "\n" + tail;
    }
  }

  lemma TrimmedIff(first: string, name: string)
    requires first <= name && name != "" && '\n' !in first && (first == name <==> '\n' !in name)
    ensures TrimEnd(first, false) == name <==> Storable(name)
  {
    TrimEndShape(first, false);
  }

  /** A name read from behind lines without its key: it comes back exactly when storable. */
  lemma NameReadsBackIff(before: seq<string>, key: string, name: string, after: string)
    requires '\n' !in key && forall i :: 0 <= i < |before| ==> !(key <= before[i])
    requires name == "" ==> FirstValue(FileLines(after), key, ParseName).None?
    ensures var found := FirstValue(before + FileLines(NameLine(key, name) + after), key, ParseName);
      (if found.Some? then found.value else "") == name <==> Storable(name)
  {
    hide FileLines, Storable, TrimEnd, FirstValue;
    NotInSettings(before, FileLines(NameLine(key, name) + after), key, ParseName);
    if name == "" {
      assert NameLine(key, name) + after == after;
      assert Storable("") by { EmptyIsStorable(); }
    } else {
      hide NameLine;
      var first, rest := FirstNameLine(key, name, after);
      assert [] + [key + first] + rest == [key + first] + rest;
      Found([], key, first, rest, ParseName);
      TrimmedIff(first, name);
    }
  }

  lemma EmptyIsStorable()
    ensures Storable("")
  {
  }

  lemma NoOtherName(key: string, other: string, name: string)
    requires '\n' !in other + name && !(key <= other + name)
    ensures FirstValue(FileLines(NameLine(other, name)), key, ParseName).None?
    ensures FileLines(NameLine(other, name)) == if name == "" then [] else [other + name]
  {
    if name != "" {
      hide FileLines;
      var first, rest := FirstNameLine(other, name, "");
      assert NameLine(other, name) + "" == NameLine(other, name);
      assert rest == [] by { NothingLeft(); }
    }
  }

  lemma NothingLeft()
    ensures FileLines("") == []
  {
  }

  /** The DS4 name reads back exactly when it is storable (an empty one as an absent line);
      the other name cannot interfere unless it contains a line break itself. */
  lemma Ds4NameRoundTripIff(c: Config)
    requires '\n' !in c.dualSenseName
    ensures ReadName(WriteConfig(c), "name_ds4=") == c.ds4Name <==> Storable(c.ds4Name)
  {
    hide FileLines, SettingLines, NameLine, WriteConfig, Storable, FirstValue;
    SettingKeys(c);
    SettingsComeFirst(c);
    KeysDiffer("name_ds4=", "name_dualsense=" + c.dualSenseName, 6);
    NoOtherName("name_ds4=", "name_dualsense=", c.dualSenseName);
    NameReadsBackIff(SettingLines(c), "name_ds4=", c.ds4Name, NameLine("name_dualsense=", c.dualSenseName));
  }

  /** The same for the DualSense name, which follows. */
  lemma DualSenseNameRoundTripIff(c: Config)
    requires '\n' !in c.ds4Name
    ensures ReadName(WriteConfig(c), "name_dualsense=") == c.dualSenseName <==> Storable(c.dualSenseName)
  {
    hide FileLines, SettingLines, WriteConfig, Storable, FirstValue;
    SettingKeys(c);
    SettingsComeFirst(c);
    var key, own := "name_dualsense=", NameLine("name_dualsense=", c.dualSenseName);
    KeysDiffer(key, "name_ds4=" + c.ds4Name, 6);
    var before := if c.ds4Name == "" then [] else ["name_ds4=" + c.ds4Name];
    assert FileLines(NameText(c)) == before + FileLines(own) by {
      if c.ds4Name == "" {
        assert NameText(c) == own;
      } else {
        var first, rest := FirstNameLine("name_ds4=", c.ds4Name, own);
      }
    }
    assert SettingLines(c) + (before + FileLines(own)) == (SettingLines(c) + before) + FileLines(own);
    assert own + "" == own;
    assert FirstValue(FileLines(""), key, ParseName).None? by { NothingLeft(); EmptyHasNothing(key); }
    NameReadsBackIff(SettingLines(c) + before, key, c.dualSenseName, "");
  }

  lemma EmptyHasNothing(key: string)
    ensures FirstValue([], key, ParseName).None?
  {
  }

  /** set-name's check is enough: with it, every key reads back as written. */
  lemma CheckedNamesRoundTrip(c: Config)
    requires '\n' !in c.ds4Name && '\r' !in c.ds4Name && '\n' !in c.dualSenseName && '\r' !in c.dualSenseName
    ensures ReadName(WriteConfig(c), "name_ds4=") == c.ds4Name
    ensures ReadName(WriteConfig(c), "name_dualsense=") == c.dualSenseName
  {
    hide ReadName, WriteConfig;
    Ds4NameRoundTripIff(c);
    DualSenseNameRoundTripIff(c);
  }
}
