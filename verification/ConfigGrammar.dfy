/** Which files the configuration parser accepts, and what they mean. */
module ConfigGrammar {
  import opened Text
  import opened Config

  /** A file is a sequence of empty lines, directive lines, and blocks of directive lines. */
  datatype Entry = Blank | Line(text: string) | Block(open: string, lines: seq<string>, close: string)

  predicate IsDirectiveLine(line: string) {
    '\n' !in line && Setting(line).Some?
  }

  predicate ValidEntry(entry: Entry) {
    match entry
    case Blank => true
    case Line(text) => IsDirectiveLine(text)
    case Block(open, lines, close) =>
      && '\n' !in open && IsOpenLine(VIRTUAL_HOST, open)
      && (forall i | 0 <= i < |lines| :: IsDirectiveLine(lines[i]))
      && '\n' !in close && IsCloseLine(VIRTUAL_HOST, close)
  }

  function PrintLines(lines: seq<string>): string {
    if lines == [] then "" else lines[0] + ['\n'] + PrintLines(lines[1..])
  }

  function PrintEntry(entry: Entry): string {
    match entry
    case Blank => "\n"
    case Line(text) => text + ['\n']
    case Block(open, lines, close) => open + ['\n'] + (PrintLines(lines) + (close + ['\n']))
  }

  function PrintEntries(entries: seq<Entry>): string {
    if entries == [] then "" else PrintEntry(entries[0]) + PrintEntries(entries[1..])
  }

  /** Directive lines collected over `directives`, later lines replacing earlier ones. */
  function Collect(lines: seq<string>, directives: Directives): Directives
    decreases |lines|
  {
    if lines == [] then directives
    else
      match Setting(lines[0])
      case None => Collect(lines[1..], directives)
      case Some((directive, value)) => Collect(lines[1..], directives[directive := value])
  }

  /** What one entry adds to a configuration. */
  function Add(entry: Entry, config: ServerConfig): ServerConfig
    requires ValidEntry(entry)
  {
    match entry
    case Blank => config
    case Line(text) =>
      var (directive, value) := Setting(text).value;
      config.(directives := config.directives[directive := value])
    case Block(_, lines, _) => config.(virtualHosts := config.virtualHosts + [VirtualHost(Collect(lines, map[]))])
  }

  function Meaning(entries: seq<Entry>, config: ServerConfig): ServerConfig
    requires forall i | 0 <= i < |entries| :: ValidEntry(entries[i])
    decreases |entries|
  {
    if entries == [] then config else Meaning(entries[1..], Add(entries[0], config))
  }

  // ---------- lines, by their characters ----------

  const OPEN := "<VirtualHost"
  const CLOSE_START := "</VirtualHost"

  function Keyword(directive: Directive): string {
    match directive
    case CacheSize => "CacheSize"
    case DocumentRoot => "DocumentRoot"
    case ListenPort => "Listen"
    case ServerName => "ServerName"
    case ThreadPoolSize => "ThreadPoolSize"
  }

  /** The keyword of a directive, one space and a value, with whitespace around them. */
  ghost predicate IsSetting(line: string, directive: Directive, value: string, before: string, after: string) {
    && value != "" && !IsSpace(value[|value| - 1])
    && AllSpace(before) && AllSpace(after)
    && line == before + ((Keyword(directive) + [' '] + value) + after)
  }

  lemma KeywordsAre(name: string, directive: Directive)
    ensures DirectiveOf(name) == Some(directive) <==> name == Keyword(directive)
  {
    assert |CACHE_SIZE| == 9 && |DOCUMENT_ROOT| == 12 && |LISTEN| == 6 && |SERVER_NAME| == 10
        && |THREAD_POOL_SIZE| == 14;
  }

  lemma KeywordStart(directive: Directive)
    ensures Keyword(directive) != "" && !IsSpace(Keyword(directive)[0]) && ' ' !in Keyword(directive)
  {
  }

  lemma SettingRead(line: string, directive: Directive, value: string) returns (before: string, after: string)
    requires Setting(line) == Some((directive, value))
    ensures IsSetting(line, directive, value, before, after)
  {
    hide SplitOnce, TrimBy, DirectiveOf, Keyword;
    var text := Keyword(directive) + [' '] + value;
    SplitOnceParts(Trim(line), ' ');
    KeywordsAre(SplitOnce(Trim(line), ' ').value.0, directive);
    before, after := TrimParts(line, WHITESPACE);
    SpacesAre(before);
    SpacesAre(after);
    SpacesAre(text);
    assert Trim(line) == text && !IsSpace(text[|text| - 1]);
    assert IsSpace(' ');
    assert value != "" ==> text[|text| - 1] == value[|value| - 1];
  }

  /** The lines the parser takes for a directive, and what it makes of them. */
  lemma SettingsExactly(line: string, directive: Directive, value: string)
    ensures Setting(line) == Some((directive, value))
        <==> exists before, after :: IsSetting(line, directive, value, before, after)
  {
    hide SplitOnce, TrimBy, DirectiveOf, Keyword;
    if Setting(line) == Some((directive, value)) {
      var before, after := SettingRead(line, directive, value);
    }
    forall before, after | IsSetting(line, directive, value, before, after)
      ensures Setting(line) == Some((directive, value))
    {
      SettingIs(line, directive, value, before, after);
    }
  }

  lemma SettingIs(line: string, directive: Directive, value: string, before: string, after: string)
    requires IsSetting(line, directive, value, before, after)
    ensures Setting(line) == Some((directive, value))
  {
    hide SplitOnce, TrimBy, DirectiveOf, Keyword;
    var text := Keyword(directive) + [' '] + value;
    KeywordStart(directive);
    KeywordsAre(Keyword(directive), directive);
    assert text[0] == Keyword(directive)[0] && text[|text| - 1] == value[|value| - 1];
    SpacesAre(before);
    SpacesAre(after);
    SpacesAre(text);
    TrimAround(before, text, after, WHITESPACE);
    SplitOnceAt(Keyword(directive), ' ', value);
  }

  lemma DiscardExactly(start: string, line: string, argument: string)
    ensures DiscardString(start, line) == Some(argument) <==> line == start + argument
  {
  }

  lemma BracketExactly(s: string)
    ensures EndsBlockTag(s) <==> exists argument: string :: s == argument + ">"
  {
    if EndsBlockTag(s) {
      assert s == s[..|s| - 1] + ">";
    }
  }

  /** The lines that open a block: anything may stand before the closing bracket. */
  lemma OpenLinesExactly(line: string)
    ensures IsOpenLine(VIRTUAL_HOST, line) <==> exists argument: string :: line == OPEN + (argument + ">")
  {
    if IsOpenLine(VIRTUAL_HOST, line) {
      var end := line[1..][|VIRTUAL_HOST|..];
      BracketExactly(end);
      var argument: string :| end == argument + ">";
      assert line == ['<'] + (VIRTUAL_HOST + (argument + ">"));
      assert line == OPEN + (argument + ">");
    }
    forall argument: string | line == OPEN + (argument + ">")
      ensures IsOpenLine(VIRTUAL_HOST, line)
    {
      assert line[1..] == VIRTUAL_HOST + (argument + ">");
      DiscardExactly(VIRTUAL_HOST, line[1..], argument + ">");
    }
  }

  lemma CloseLineRead(line: string) returns (argument: string)
    requires IsCloseLine(VIRTUAL_HOST, line)
    ensures line == CLOSE_START + (argument + ">")
  {
    var tag := line[1..][1..];
    var end := tag[|VIRTUAL_HOST|..];
    argument := end[..|end| - 1];
    assert end == argument + ">";
    assert tag == VIRTUAL_HOST + end;
    assert line == ['<'] + (['/'] + tag);
  }

  lemma CloseLineIs(argument: string)
    ensures IsCloseLine(VIRTUAL_HOST, CLOSE_START + (argument + ">"))
  {
    var line := CLOSE_START + (argument + ">");
    assert line[1..][1..] == VIRTUAL_HOST + (argument + ">");
    DiscardExactly(VIRTUAL_HOST, line[1..][1..], argument + ">");
  }

  /** The lines that close a block; here, too, anything may stand before the bracket. */
  lemma CloseLinesExactly(line: string)
    ensures IsCloseLine(VIRTUAL_HOST, line) <==> exists argument: string :: line == CLOSE_START + (argument + ">")
  {
    hide IsCloseLine;
    if IsCloseLine(VIRTUAL_HOST, line) {
      var argument := CloseLineRead(line);
    }
    forall argument: string | line == CLOSE_START + (argument + ">")
      ensures IsCloseLine(VIRTUAL_HOST, line)
    {
      CloseLineIs(argument);
    }
  }

  // ---------- the kinds of lines differ ----------

  lemma TagIsNoSetting(line: string)
    requires line != "" && line[0] == '<'
    ensures Setting(line).None?
  {
    hide TrimBy, SplitOnce, DirectiveOf;
    var trimmed := Trim(line);
    var before, after := TrimParts(line, WHITESPACE);
    assert line[0] !in WHITESPACE;
    SplitOnceParts(trimmed, ' ');
    if SplitOnce(trimmed, ' ').Some? {
      var field := SplitOnce(trimmed, ' ').value.0;
      assert (field + [' '])[0] == trimmed[0] == '<';
      NamesAreNoTags(field);
    }
  }

  lemma NamesAreNoTags(name: string)
    ensures name != "" && name[0] == '<' ==> DirectiveOf(name).None?
  {
  }

  lemma BlankIsNoSetting()
    ensures Setting("").None?
  {
    hide DirectiveOf;
    assert TrimStart("", WHITESPACE) == "" && TrimEnd("", WHITESPACE) == "";
    assert Trim("") == "";
  }

  lemma ParseLine(line: string, rest: string)
    requires '\n' !in line
    ensures ParseDirective(line + ['\n'] + rest)
         == match Setting(line)
            case None => None
            case Some(setting) => Some((setting, rest))
  {
    hide Setting, SplitOnce;
    SplitOnceAt(line, '\n', rest);
  }

  // ---------- everything in the grammar is accepted ----------

  lemma {:induction false} ParseCollected(lines: seq<string>, close: string, rest: string, directives: Directives)
    requires forall i | 0 <= i < |lines| :: IsDirectiveLine(lines[i])
    requires '\n' !in close && IsCloseLine(VIRTUAL_HOST, close)
    ensures ParseDirectives(PrintLines(lines) + (close + ['\n'] + rest), directives)
         == (Collect(lines, directives), close + ['\n'] + rest)
    decreases |lines|
  {
    hide Setting, ParseDirective;
    var behind := close + ['\n'] + rest;
    if lines == [] {
      assert PrintLines(lines) + behind == behind;
      TagIsNoSetting(close);
      ParseLine(close, rest);
    } else {
      assert IsDirectiveLine(lines[0]);
      assert PrintLines(lines) + behind == lines[0] + ['\n'] + (PrintLines(lines[1..]) + behind);
      ParseLine(lines[0], PrintLines(lines[1..]) + behind);
      var (directive, value) := Setting(lines[0]).value;
      ParseCollected(lines[1..], close, rest, directives[directive := value]);
    }
  }

  lemma ParseBlock(entry: Entry, rest: string)
    requires ValidEntry(entry) && entry.Block?
    ensures var s := PrintEntry(entry) + rest;
            && DiscardChar('\n', s).None? && ParseDirective(s).None? && s != ""
            && ParseVirtualHost(s) == Some((VirtualHost(Collect(entry.lines, map[])), rest))
  {
    hide Setting, SplitOnce, IsDirectiveLine, ParseDirectives, PrintLines, EndsBlockTag, DiscardString;
    var s := PrintEntry(entry) + rest;
    var behind := entry.close + ['\n'] + rest;
    var inside := PrintLines(entry.lines) + behind;
    assert s == entry.open + ['\n'] + inside;
    TagIsNoSetting(entry.open);
    ParseLine(entry.open, inside);
    SplitOnceAt(entry.open, '\n', inside);
    ParseCollected(entry.lines, entry.close, rest, map[]);
    SplitOnceAt(entry.close, '\n', rest);
  }

  lemma ParseSettingLine(text: string, rest: string)
    requires IsDirectiveLine(text)
    ensures var s := text + ['\n'] + rest;
            && DiscardChar('\n', s).None? && s != ""
            && ParseDirective(s) == Some((Setting(text).value, rest))
  {
    hide Setting, ParseDirective;
    BlankIsNoSetting();
    ParseLine(text, rest);
  }

  lemma {:induction false} GrammarAccepted(entries: seq<Entry>, config: ServerConfig)
    requires forall i | 0 <= i < |entries| :: ValidEntry(entries[i])
    ensures ParseInto(PrintEntries(entries), config) == Some(Meaning(entries, config))
    decreases |entries|
  {
    hide Setting, ParseDirective, ParseVirtualHost, PrintLines, Collect, IsOpenLine, IsCloseLine;
    if entries == [] {
    } else {
      var entry, rest := entries[0], PrintEntries(entries[1..]);
      assert ValidEntry(entry);
      GrammarAccepted(entries[1..], Add(entry, config));
      match entry
      case Blank =>
        assert ("\n" + rest)[1..] == rest;
      case Line(text) => ParseSettingLine(text, rest);
      case Block(_, _, _) => ParseBlock(entry, rest);
    }
  }

  // ---------- everything accepted is in the grammar ----------

  lemma {:induction false} CollectedSound(s: string, directives: Directives) returns (lines: seq<string>)
    ensures forall i | 0 <= i < |lines| :: IsDirectiveLine(lines[i])
    ensures ParseDirectives(s, directives).0 == Collect(lines, directives)
    ensures s == PrintLines(lines) + ParseDirectives(s, directives).1
    decreases |s|
  {
    hide Setting, SplitOnce;
    if ParseDirective(s).None? {
      lines := [];
    } else {
      var ((directive, value), rest) := ParseDirective(s).value;
      SplitOnceParts(s, '\n');
      var line := SplitOnce(s, '\n').value.0;
      var after := CollectedSound(rest, directives[directive := value]);
      lines := [line] + after;
      assert lines[1..] == after;
      var end := ParseDirectives(s, directives).1;
      assert s == line + ['\n'] + (PrintLines(after) + end);
    }
  }

  lemma BlockSound(s: string) returns (entry: Entry)
    requires ParseVirtualHost(s).Some?
    ensures entry.Block? && ValidEntry(entry)
    ensures ParseVirtualHost(s).value.0 == VirtualHost(Collect(entry.lines, map[]))
    ensures s == PrintEntry(entry) + ParseVirtualHost(s).value.1
  {
    hide Setting, SplitOnce, ParseDirectives, PrintLines, IsOpenLine, IsCloseLine, Collect;
    var rest := ParseVirtualHost(s).value.1;
    SplitOnceParts(s, '\n');
    var (open, inside) := SplitOnce(s, '\n').value;
    var lines := CollectedSound(inside, map[]);
    var end := ParseDirectives(inside, map[]).1;
    SplitOnceParts(end, '\n');
    var (close, _) := SplitOnce(end, '\n').value;
    entry := Block(open, lines, close);
    assert s == open + ['\n'] + (PrintLines(lines) + (close + ['\n'] + rest));
  }

  lemma {:induction false} AcceptedInGrammar(s: string, config: ServerConfig) returns (entries: seq<Entry>)
    requires ParseInto(s, config).Some?
    ensures forall i | 0 <= i < |entries| :: ValidEntry(entries[i])
    ensures s == PrintEntries(entries) && ParseInto(s, config) == Some(Meaning(entries, config))
    decreases |s|
  {
    hide Setting, SplitOnce, ParseVirtualHost, PrintLines, Collect, IsOpenLine, IsCloseLine;
    if s == "" {
      entries := [];
    } else {
      var entry, rest := FirstEntry(s, config);
      var after := AcceptedInGrammar(rest, Add(entry, config));
      entries := [entry] + after;
      assert entries[1..] == after;
    }
  }

  lemma FirstEntry(s: string, config: ServerConfig) returns (entry: Entry, rest: string)
    requires s != "" && ParseInto(s, config).Some?
    ensures ValidEntry(entry) && s == PrintEntry(entry) + rest && |rest| < |s|
    ensures ParseInto(s, config) == ParseInto(rest, Add(entry, config))
  {
    hide Setting, SplitOnce, ParseVirtualHost, PrintLines, Collect, IsOpenLine, IsCloseLine;
    if DiscardChar('\n', s).Some? {
      entry, rest := Blank, s[1..];
      assert s == ['\n'] + rest;
    } else if ParseDirective(s).Some? {
      SplitOnceParts(s, '\n');
      var (line, after) := SplitOnce(s, '\n').value;
      entry, rest := Line(line), after;
    } else {
      entry := BlockSound(s);
      rest := ParseVirtualHost(s).value.1;
    }
  }

  /** The parser accepts exactly the files made of valid entries, and returns what they mean. */
  lemma AcceptsExactlyTheGrammar(s: string, config: ServerConfig)
    ensures ParseInto(s, EMPTY) == Some(config)
        <==> exists entries: seq<Entry> :: IsFile(s, entries, config)
  {
    hide ParseInto, IsFile;
    if ParseInto(s, EMPTY) == Some(config) {
      var entries := AcceptedInGrammar(s, EMPTY);
      assert IsFile(s, entries, config) by { FileOf(s, entries, config); }
    }
    forall entries: seq<Entry> | IsFile(s, entries, config)
      ensures ParseInto(s, EMPTY) == Some(config)
    {
      FileParses(s, entries, config);
    }
  }

  /** `s` is the file made of `entries`, and `config` is what it says. */
  ghost predicate IsFile(s: string, entries: seq<Entry>, config: ServerConfig) {
    && (forall i | 0 <= i < |entries| :: ValidEntry(entries[i]))
    && s == PrintEntries(entries) && config == Meaning(entries, EMPTY)
  }

  lemma FileOf(s: string, entries: seq<Entry>, config: ServerConfig)
    requires forall i | 0 <= i < |entries| :: ValidEntry(entries[i])
    requires s == PrintEntries(entries) && config == Meaning(entries, EMPTY)
    ensures IsFile(s, entries, config)
  {
  }

  lemma FileParses(s: string, entries: seq<Entry>, config: ServerConfig)
    requires IsFile(s, entries, config)
    ensures ParseInto(s, EMPTY) == Some(config)
  {
    hide ParseInto, ValidEntry;
    GrammarAccepted(entries, EMPTY);
  }

  // ---------- printing and reading back ----------

  /** One setting as it is to be printed: indented by `indent`. */
  datatype Item = Item(indent: string, directive: Directive, value: string)

  /** What to print at the top level: an empty line, a setting, or a virtual host with its block argument. */
  datatype Part = Space | Top(item: Item) | Virtual(argument: string, items: seq<Item>)

  predicate PrintableItem(item: Item) {
    && (forall i | 0 <= i < |item.indent| :: item.indent[i] in WHITESPACE && item.indent[i] != '\n')
    && item.value != "" && '\n' !in item.value && item.value[|item.value| - 1] !in WHITESPACE
  }

  predicate PrintablePart(part: Part) {
    match part
    case Space => true
    case Top(item) => PrintableItem(item)
    case Virtual(argument, items) =>
      '\n' !in argument && forall i | 0 <= i < |items| :: PrintableItem(items[i])
  }

  function ItemText(item: Item): string {
    item.indent + (Keyword(item.directive) + [' '] + item.value)
  }

  const CLOSE := "</VirtualHost>"

  function EntryOf(part: Part): Entry {
    match part
    case Space => Blank
    case Top(item) => Line(ItemText(item))
    case Virtual(argument, items) => Block(OPEN + (argument + ">"), ItemTexts(items), CLOSE)
  }

  function ItemTexts(items: seq<Item>): seq<string> {
    seq(|items|, i requires 0 <= i < |items| => ItemText(items[i]))
  }

  function EntriesOf(parts: seq<Part>): seq<Entry> {
    seq(|parts|, i requires 0 <= i < |parts| => EntryOf(parts[i]))
  }

  function Settings(items: seq<Item>, directives: Directives): Directives
    decreases |items|
  {
    if items == [] then directives else Settings(items[1..], directives[items[0].directive := items[0].value])
  }

  /** The configuration the parts describe: later settings replace earlier ones, virtual hosts keep their order. */
  function Described(parts: seq<Part>, config: ServerConfig): ServerConfig
    decreases |parts|
  {
    if parts == [] then config
    else
      Described(parts[1..],
                match parts[0]
                case Space => config
                case Top(item) => config.(directives := config.directives[item.directive := item.value])
                case Virtual(_, items) =>
                  config.(virtualHosts := config.virtualHosts + [VirtualHost(Settings(items, map[]))]))
  }

  lemma NamesRoundTrip(directive: Directive)
    ensures DirectiveOf(Keyword(directive)) == Some(directive)
    ensures Keyword(directive) != "" && Keyword(directive)[0] !in WHITESPACE
    ensures ' ' !in Keyword(directive) && '\n' !in Keyword(directive)
  {
  }

  lemma ItemRoundTrip(item: Item)
    requires PrintableItem(item)
    ensures IsDirectiveLine(ItemText(item)) && Setting(ItemText(item)) == Some((item.directive, item.value))
  {
    hide DirectiveOf, Keyword, TrimBy, SplitOnce;
    NamesRoundTrip(item.directive);
    var name := Keyword(item.directive);
    var text := name + [' '] + item.value;
    TrimPadded(item.indent, text, WHITESPACE);
    SplitOnceAt(name, ' ', item.value);
  }

  lemma {:induction false} ItemsRoundTrip(items: seq<Item>, directives: Directives)
    requires forall i | 0 <= i < |items| :: PrintableItem(items[i])
    ensures forall i | 0 <= i < |items| :: IsDirectiveLine(ItemTexts(items)[i])
    ensures Collect(ItemTexts(items), directives) == Settings(items, directives)
    decreases |items|
  {
    hide PrintableItem, ItemText, Setting, IsDirectiveLine;
    forall i | 0 <= i < |items|
      ensures IsDirectiveLine(ItemTexts(items)[i])
    {
      ItemRoundTrip(items[i]);
    }
    if items == [] {
    } else {
      ItemRoundTrip(items[0]);
      assert ItemTexts(items)[1..] == ItemTexts(items[1..]);
      ItemsRoundTrip(items[1..], directives[items[0].directive := items[0].value]);
    }
  }

  lemma TagsFit(argument: string)
    ensures IsOpenLine(VIRTUAL_HOST, OPEN + (argument + ">")) && IsCloseLine(VIRTUAL_HOST, CLOSE)
    ensures '\n' !in OPEN && '\n' !in CLOSE
  {
    var open := OPEN + (argument + ">");
    assert open[1..] == VIRTUAL_HOST + (argument + ">");
    assert DiscardString(VIRTUAL_HOST, open[1..]) == Some(argument + ">");
    assert CLOSE[1..][1..] == VIRTUAL_HOST + ">";
    assert DiscardString(VIRTUAL_HOST, CLOSE[1..][1..]) == Some(">");
  }

  lemma PartRoundTrip(part: Part)
    requires PrintablePart(part)
    ensures ValidEntry(EntryOf(part))
    ensures match part
            case Space => EntryOf(part).Blank?
            case Top(item) => Setting(EntryOf(part).text) == Some((item.directive, item.value))
            case Virtual(_, items) => Collect(EntryOf(part).lines, map[]) == Settings(items, map[])
  {
    hide PrintableItem, ItemText, Setting, IsDirectiveLine, IsOpenLine, IsCloseLine, Collect;
    match part
    case Space =>
    case Top(item) => ItemRoundTrip(item);
    case Virtual(argument, items) =>
      ItemsRoundTrip(items, map[]);
      TagsFit(argument);
  }

  lemma {:induction false} PartsRoundTrip(parts: seq<Part>, config: ServerConfig)
    requires forall i | 0 <= i < |parts| :: PrintablePart(parts[i])
    ensures forall i | 0 <= i < |parts| :: ValidEntry(EntriesOf(parts)[i])
    ensures Meaning(EntriesOf(parts), config) == Described(parts, config)
    decreases |parts|
  {
    hide PrintablePart, ValidEntry, EntryOf, Setting, Collect, Settings;
    forall i | 0 <= i < |parts|
      ensures ValidEntry(EntriesOf(parts)[i])
    {
      PartRoundTrip(parts[i]);
    }
    if parts == [] {
    } else {
      PartAdds(parts[0], config);
      assert EntriesOf(parts)[1..] == EntriesOf(parts[1..]);
      PartsRoundTrip(parts[1..], Add(EntryOf(parts[0]), config));
    }
  }

  lemma PartAdds(part: Part, config: ServerConfig)
    requires PrintablePart(part)
    ensures ValidEntry(EntryOf(part))
    ensures Add(EntryOf(part), config)
         == match part
            case Space => config
            case Top(item) => config.(directives := config.directives[item.directive := item.value])
            case Virtual(_, items) =>
              config.(virtualHosts := config.virtualHosts + [VirtualHost(Settings(items, map[]))])
  {
    hide Setting, Collect, Settings, ValidEntry, PrintablePart, ItemText, ItemTexts;
    PartRoundTrip(part);
    match part
    case Space =>
    case Top(_) =>
    case Virtual(_, _) =>
  }

  /** A printed configuration, whatever the order, indentation and spacing of its parts, is read back. */
  lemma ConfigRoundTrip(parts: seq<Part>)
    requires forall i | 0 <= i < |parts| :: PrintablePart(parts[i])
    ensures ParseInto(PrintEntries(EntriesOf(parts)), EMPTY) == Some(Described(parts, EMPTY))
  {
    hide ParseInto, PrintEntries, ValidEntry, PrintablePart, Described;
    PartsRoundTrip(parts, EMPTY);
    GrammarAccepted(EntriesOf(parts), EMPTY);
  }
}
