/** Command-line options of the server: the parsing loop, its independence of option order, and the round
    trip between options and command lines. */
module Deployment {
  import opened Protocol
  import opened Permutations
  import opened Decimal

  // ---------------------------------------------------------------- inputs and options

  /** An argument as the operating system hands it over. */
  datatype OsText = Unicode(s: string) | NotUnicode(id: nat)

  datatype Services = WebUi | Server | All

  datatype Options = Options(services: Services, bindAddr: string, webRoot: Option<OsText>, database: OsText,
                             newMarket: bool, archiveSlot: Option<string>, help: bool)

  datatype Environment = Set(address: string) | NotPresent | EnvironmentNotUnicode

  /** What the parser takes from its surroundings: the compiled feature, the environment variable, and two
      library judgements about texts. */
  datatype Host = Host(webUi: bool, environment: Environment, isSocketAddr: string -> bool, isMemory: OsText -> bool)

  datatype Flag = ServicesFlag | BindFlag | WebRootFlag | DatabaseFlag | ArchiveSlotFlag

  datatype Error =
    | OptionNotUnicode | StartConflict | Repeated(flag: Flag) | MissingValue(flag: Flag) | ValueIsOption(flag: Flag)
    | EmptyValue(flag: Flag) | ValueNotUnicode(flag: Flag) | BadSlot | BadServices | UnknownOption(text: string)
    | UnsupportedServices | StartNeedsServer | MemoryDatabase | AddressNotUnicode | BadAddress

  const NEW_MARKET: string := "--new-market"

  function FlagText(f: Flag): string {
    match f
    case ServicesFlag => "--services"
    case BindFlag => "--bind"
    case WebRootFlag => "--web-root"
    case DatabaseFlag => "--database"
    case ArchiveSlotFlag => "--archive-slot"
  }

  function FlagOf(s: string): Option<Flag> {
    if s == "--services" then Some(ServicesFlag)
    else if s == "--bind" then Some(BindFlag)
    else if s == "--web-root" then Some(WebRootFlag)
    else if s == "--database" then Some(DatabaseFlag)
    else if s == "--archive-slot" then Some(ArchiveSlotFlag)
    else None
  }

  lemma FlagTexts(f: Flag)
    ensures FlagOf(FlagText(f)) == Some(f) && FlagText(f) != NEW_MARKET
    ensures |FlagText(f)| > 2 && FlagText(f)[2] != 'h'
  {
    match f
    case ServicesFlag =>
    case BindFlag =>
    case WebRootFlag =>
    case DatabaseFlag =>
    case ArchiveSlotFlag =>
  }

  predicate StartsDashed(s: string) { s != [] && s[0] == '-' }

  predicate IsWhite(c: char) {
    || '\t' <= c <= '\r' || c == ' ' || c == '\U{85}' || c == '\U{a0}' || c == '\U{1680}'
    || '\U{2000}' <= c <= '\U{200a}' || c == '\U{2028}' || c == '\U{2029}' || c == '\U{202f}'
    || c == '\U{205f}' || c == '\U{3000}'
  }

  predicate IsSlot(s: string) { (exists i :: 0 <= i < |s| && !IsWhite(s[i])) && '\0' !in s }

  function ServicesOf(s: string): Option<Services> {
    if s == "webui" then Some(WebUi) else if s == "server" then Some(Server) else if s == "all" then Some(All) else None
  }

  function ServicesText(s: Services): string {
    match s case WebUi => "webui" case Server => "server" case All => "all"
  }

  // ---------------------------------------------------------------- what has been given so far

  datatype Given = Given(services: Option<Services>, bind: Option<string>, webRoot: Option<OsText>,
                         database: Option<OsText>, newMarket: bool, archiveSlot: Option<string>)

  const Nothing := Given(None, None, None, None, false, None)

  predicate Taken(g: Given, f: Flag) {
    match f
    case ServicesFlag => g.services.Some?
    case BindFlag => g.bind.Some?
    case DatabaseFlag => g.database.Some?
    case ArchiveSlotFlag => g.archiveSlot.Some? || g.newMarket
    case WebRootFlag => g.webRoot.Some?
  }

  /** What is wrong with a value, apart from what was given before. */
  function ValueError(f: Flag, value: OsText): Option<Error> {
    if value.Unicode? && StartsDashed(value.s) then Some(ValueIsOption(f))
    else if value == Unicode("") then Some(EmptyValue(f))
    else if value.NotUnicode? then
      if f.DatabaseFlag? || f.WebRootFlag? then None else Some(ValueNotUnicode(f))
    else if f.ArchiveSlotFlag? && !IsSlot(value.s) then Some(BadSlot)
    else if f.ServicesFlag? && ServicesOf(value.s).None? then Some(BadServices)
    else None
  }

  function With(g: Given, f: Flag, value: OsText): Given
    requires ValueError(f, value).None?
  {
    match f
    case ServicesFlag => g.(services := ServicesOf(value.s))
    case BindFlag => g.(bind := Some(value.s))
    case WebRootFlag => g.(webRoot := Some(value))
    case DatabaseFlag => g.(database := Some(value))
    case ArchiveSlotFlag => g.(archiveSlot := Some(value.s))
  }

  function ParseFrom(args: seq<OsText>, g: Given): Result<Given, Error> {
    if args == [] then Ok(g)
    else if args[0].NotUnicode? then Err(OptionNotUnicode)
    else if args[0].s == NEW_MARKET then
      if g.newMarket || g.archiveSlot.Some? then Err(StartConflict) else ParseFrom(args[1..], g.(newMarket := true))
    else
      match FlagOf(args[0].s)
      case None => Err(UnknownOption(args[0].s))
      case Some(f) =>
        if Taken(g, f) then Err(Repeated(f))
        else if |args| < 2 then Err(MissingValue(f))
        else if ValueError(f, args[1]).Some? then Err(ValueError(f, args[1]).value)
        else ParseFrom(args[2..], With(g, f, args[1]))
  }

  predicate Supported(s: Services, host: Host) { s.Server? || host.webUi }

  predicate IsPort(s: string) { s != [] && AllDigits(s) && ValueOf(s) <= 65535 }

  predicate HostChar(c: char) {
    IsDigit(c) || 'a' <= c <= 'z' || 'A' <= c <= 'Z' || c == '.' || c == '-' || c == '_'
  }

  /** A host and a port split at the last colon. */
  predicate IsHostPort(s: string) {
    exists k :: 0 < k < |s| && s[k] == ':' && ':' !in s[k + 1..] && (forall i | 0 <= i < k :: HostChar(s[i]))
        && IsPort(s[k + 1..])
  }

  ghost predicate ValidAddress(s: string, host: Host) { host.isSocketAddr(s) || IsHostPort(s) }

  const DEFAULT_ADDRESS: string := "127.0.0.1:3000"

  const DefaultDatabase := Unicode("data/stock-market-game.sqlite")

  ghost function Finished(g: Given, host: Host): Result<Options, Error> {
    var services := match g.services case Some(s) => s case None => if host.webUi then All else Server;
    if !Supported(services, host) then Err(UnsupportedServices)
    else if services.WebUi? && (g.newMarket || g.archiveSlot.Some?) then Err(StartNeedsServer)
    else if g.database.Some? && host.isMemory(g.database.value) then Err(MemoryDatabase)
    else
      var database := match g.database case Some(d) => d case None => DefaultDatabase;
      if g.bind.None? && host.environment.EnvironmentNotUnicode? then Err(AddressNotUnicode)
      else
        var address := match g.bind
                       case Some(a) => a
                       case None => if host.environment.Set? then host.environment.address else DEFAULT_ADDRESS;
        if ValidAddress(address, host) then Ok(Options(services, address, g.webRoot, database, g.newMarket,
            g.archiveSlot, false))
        else Err(BadAddress)
  }

  predicate AsksForHelp(args: seq<OsText>) { args == [Unicode("--help")] || args == [Unicode("-h")] }

  function Helped(host: Host): Options {
    Options(if host.webUi then All else Server, "", None, DefaultDatabase, false, None, true)
  }

  ghost function Parsing(args: seq<OsText>, host: Host): Result<Options, Error> {
    if AsksForHelp(args) then Ok(Helped(host))
    else match ParseFrom(args, Nothing) case Err(e) => Err(e) case Ok(g) => Finished(g, host)
  }

  // ---------------------------------------------------------------- the parser as the program runs it

  method SplitAtLastColon(s: string) returns (k: Option<nat>)
    ensures k.Some? ==> k.value < |s| && s[k.value] == ':' && ':' !in s[k.value + 1..]
    ensures k.None? ==> ':' !in s
  {
    var i := |s|;
    while i > 0
      invariant 0 <= i <= |s| && ':' !in s[i..]
    {
      i := i - 1;
      if s[i] == ':' {
        return Some(i);
      }
      assert s[i..] == [s[i]] + s[i + 1..];
    }
    assert s[0..] == s;
    k := None;
  }

  method CheckAddress(s: string, host: Host) returns (valid: bool)
    ensures valid == ValidAddress(s, host)
  {
    if host.isSocketAddr(s) {
      return true;
    }
    var k := SplitAtLastColon(s);
    if k.Some? {
      LastColonUnique(s, k.value);
      var name, port := s[..k.value], s[k.value + 1..];
      valid := name != [] && (forall i | 0 <= i < |name| :: HostChar(name[i])) && IsPort(port);
    } else {
      valid := false;
      NoColonNoPort(s);
    }
  }

  lemma NoColonNoPort(s: string)
    requires ':' !in s
    ensures !IsHostPort(s)
  {
  }

  lemma NoneAfter(s: string, k: nat)
    requires k < |s| && ':' !in s[k + 1..]
    ensures forall i | k < i < |s| :: s[i] != ':'
  {
    assert forall i | k < i < |s| :: s[i] == s[k + 1..][i - k - 1];
  }

  lemma LastColonUnique(s: string, k: nat)
    requires k < |s| && s[k] == ':' && ':' !in s[k + 1..]
    ensures IsHostPort(s) <==>
              s[..k] != [] && (forall i | 0 <= i < k :: HostChar(s[..k][i])) && IsPort(s[k + 1..])
  {
    forall j | 0 < j < |s| && s[j] == ':' && ':' !in s[j + 1..] ensures j == k {
      NoneAfter(s, j);
      NoneAfter(s, k);
    }
    if s[..k] != [] && (forall i | 0 <= i < k :: HostChar(s[..k][i])) && IsPort(s[k + 1..]) {
      assert forall i | 0 <= i < k :: s[..k][i] == s[i];
    }
    if IsHostPort(s) {
      assert forall i | 0 <= i < k :: s[..k][i] == s[i];
    }
  }

  method ReadOptions(args: seq<OsText>) returns (r: Result<Given, Error>)
    ensures r == ParseFrom(args, Nothing)
  {
    var g, i := Nothing, 0;
    while i < |args|
      invariant 0 <= i <= |args| && ParseFrom(args, Nothing) == ParseFrom(args[i..], g)
    {
      var rest := args[i..];
      if args[i].NotUnicode? {
        return Err(OptionNotUnicode);
      }
      var text := args[i].s;
      if text == NEW_MARKET {
        if g.newMarket || g.archiveSlot.Some? {
          return Err(StartConflict);
        }
        g := g.(newMarket := true);
        i := i + 1;
        assert rest[1..] == args[i..];
        continue;
      }
      var flag := FlagOf(text);
      if flag.None? {
        return Err(UnknownOption(text));
      }
      var f := flag.value;
      if Taken(g, f) {
        return Err(Repeated(f));
      }
      if i + 1 == |args| {
        return Err(MissingValue(f));
      }
      var value := args[i + 1];
      var wrong := ValueError(f, value);
      if wrong.Some? {
        return Err(wrong.value);
      }
      g := With(g, f, value);
      i := i + 2;
      assert rest[2..] == args[i..];
    }
    r := Ok(g);
  }

  method Parse(args: seq<OsText>, host: Host) returns (r: Result<Options, Error>)
    ensures r == Parsing(args, host)
  {
    if |args| == 1 && (args[0] == Unicode("--help") || args[0] == Unicode("-h")) {
      assert args == [args[0]];
      return Ok(Helped(host));
    }
    var read := ReadOptions(args);
    if read.Err? {
      return Err(read.error);
    }
    var g := read.value;
    var services := if host.webUi then All else Server;
    if g.services.Some? {
      services := g.services.value;
    }
    if !Supported(services, host) {
      return Err(UnsupportedServices);
    }
    if services.WebUi? && (g.newMarket || g.archiveSlot.Some?) {
      return Err(StartNeedsServer);
    }
    var database := DefaultDatabase;
    if g.database.Some? {
      if host.isMemory(g.database.value) {
        return Err(MemoryDatabase);
      }
      database := g.database.value;
    }
    var address := DEFAULT_ADDRESS;
    if g.bind.Some? {
      address := g.bind.value;
    } else {
      match host.environment {
        case Set(a) => address := a;
        case NotPresent =>
        case EnvironmentNotUnicode => return Err(AddressNotUnicode);
      }
    }
    var valid := CheckAddress(address, host);
    if !valid {
      return Err(BadAddress);
    }
    r := Ok(Options(services, address, g.webRoot, database, g.newMarket, g.archiveSlot, false));
  }

  // ---------------------------------------------------------------- option order

  /** An option with the value it takes, if it takes one. */
  datatype Group = NewMarket | Valued(flag: Flag, value: OsText)

  function Words(g: Group): seq<OsText> {
    match g case NewMarket => [Unicode(NEW_MARKET)] case Valued(f, value) => [Unicode(FlagText(f)), value]
  }

  function Line(groups: seq<Group>): seq<OsText> {
    if groups == [] then [] else Words(groups[0]) + Line(groups[1..])
  }

  predicate Fits(g: Given, group: Group) {
    match group
    case NewMarket => !g.newMarket && g.archiveSlot.None?
    case Valued(f, value) => !Taken(g, f) && ValueError(f, value).None?
  }

  function Plus(g: Given, group: Group): Given
    requires Fits(g, group)
  {
    match group case NewMarket => g.(newMarket := true) case Valued(f, value) => With(g, f, value)
  }

  /** Everything given by the groups, if each fits what came before. */
  function Sum(g: Given, groups: seq<Group>): Option<Given>
    decreases |groups|
  {
    if groups == [] then Some(g) else if Fits(g, groups[0]) then Sum(Plus(g, groups[0]), groups[1..]) else None
  }

  lemma {:induction false} LineParses(g: Given, groups: seq<Group>)
    ensures match Sum(g, groups)
            case Some(total) => ParseFrom(Line(groups), g) == Ok(total)
            case None => ParseFrom(Line(groups), g).Err?
    decreases |groups|
  {
    if groups != [] {
      var line, rest := Line(groups), Line(groups[1..]);
      match groups[0] {
        case NewMarket =>
          assert line[1..] == rest;
        case Valued(f, value) =>
          FlagTexts(f);
          assert line[2..] == rest;
      }
      if Fits(g, groups[0]) {
        LineParses(Plus(g, groups[0]), groups[1..]);
      }
    }
  }

  lemma TakenWith(g: Given, f: Flag, value: OsText, f': Flag)
    requires ValueError(f, value).None?
    ensures Taken(With(g, f, value), f') <==> Taken(g, f') || f == f'
  {
  }

  lemma WithCommutes(g: Given, f: Flag, value: OsText, f': Flag, value': OsText)
    requires f != f' && ValueError(f, value).None? && ValueError(f', value').None?
    ensures With(With(g, f, value), f', value') == With(With(g, f', value'), f, value)
  {
  }

  /** Two options can be given in either order, or in neither. */
  lemma Commute(g: Given, a: Group, b: Group)
    ensures Fits(g, a) && Fits(Plus(g, a), b) <==> Fits(g, b) && Fits(Plus(g, b), a)
    ensures Fits(g, a) && Fits(Plus(g, a), b) ==> Plus(Plus(g, a), b) == Plus(Plus(g, b), a)
  {
    if a.Valued? && b.Valued? {
      if ValueError(a.flag, a.value).None? && ValueError(b.flag, b.value).None? {
        TakenWith(g, a.flag, a.value, b.flag);
        TakenWith(g, b.flag, b.value, a.flag);
        if a.flag != b.flag {
          WithCommutes(g, a.flag, a.value, b.flag, b.value);
        }
      }
    }
  }

  lemma {:induction false} MoveToFront(g: Given, before: seq<Group>, x: Group, after: seq<Group>)
    ensures Sum(g, before + [x] + after) == Sum(g, [x] + (before + after))
    decreases |before|
  {
    if before == [] {
      assert before + [x] + after == [x] + (before + after);
    } else {
      var y, rest := before[0], before[1..];
      assert (before + [x] + after)[1..] == rest + [x] + after && (before + [x] + after)[0] == y;
      assert ([x] + (before + after))[1..] == before + after && (before + after)[1..] == rest + after;
      if Fits(g, y) {
        MoveToFront(Plus(g, y), rest, x, after);
        assert ([x] + (rest + after))[1..] == rest + after;
      }
      Commute(g, x, y);
    }
  }

  lemma {:induction false} SumUnordered(g: Given, a: seq<Group>, b: seq<Group>)
    requires multiset(a) == multiset(b)
    ensures Sum(g, a) == Sum(g, b)
    decreases |a|
  {
    if a == [] {
      assert |multiset(b)| == 0;
    } else {
      var i := TakeOut(a, b);
      var rest := b[..i] + b[i + 1..];
      assert b == b[..i] + [a[0]] + b[i + 1..] && a == [a[0]] + a[1..];
      MoveToFront(g, b[..i], a[0], b[i + 1..]);
      assert ([a[0]] + rest)[1..] == rest;
      if Fits(g, a[0]) {
        SumUnordered(Plus(g, a[0]), a[1..], rest);
      }
    }
  }

  lemma LineIsNoHelp(groups: seq<Group>)
    ensures !AsksForHelp(Line(groups))
  {
    if groups != [] {
      if groups[0].Valued? {
        FlagTexts(groups[0].flag);
      }
      var first := Words(groups[0])[0].s;
      assert Line(groups)[0] == Unicode(first) && |first| > 2 && first[2] != 'h';
      assert "--help"[2] == 'h' && |"-h"| == 2;
    }
  }

  /** The order of options makes no difference: any permutation of the groups is accepted or rejected alike,
      and with the same options. */
  lemma OrderDoesNotMatter(a: seq<Group>, b: seq<Group>, host: Host)
    requires multiset(a) == multiset(b)
    ensures Parsing(Line(a), host).Ok? <==> Parsing(Line(b), host).Ok?
    ensures Parsing(Line(a), host).Ok? ==> Parsing(Line(a), host) == Parsing(Line(b), host)
  {
    LineIsNoHelp(a);
    LineIsNoHelp(b);
    LineParses(Nothing, a);
    LineParses(Nothing, b);
    SumUnordered(Nothing, a, b);
  }

  // ---------------------------------------------------------------- options back to a command line

  function RootGroup(o: Options): seq<Group> {
    if o.webRoot.Some? then [Valued(WebRootFlag, o.webRoot.value)] else []
  }

  function MarketGroup(o: Options): seq<Group> { if o.newMarket then [NewMarket] else [] }

  function SlotGroup(o: Options): seq<Group> {
    if o.archiveSlot.Some? then [Valued(ArchiveSlotFlag, Unicode(o.archiveSlot.value))] else []
  }

  function Groups(o: Options): seq<Group> {
    [Valued(ServicesFlag, Unicode(ServicesText(o.services)))]
    + ([Valued(BindFlag, Unicode(o.bindAddr))]
       + ([Valued(DatabaseFlag, o.database)] + (RootGroup(o) + (MarketGroup(o) + (SlotGroup(o) + [])))))
  }

  /** Options the parser can produce. */
  ghost predicate ValidOptions(o: Options, host: Host) {
    && !o.help && Supported(o.services, host)
    && (o.services.WebUi? ==> !o.newMarket && o.archiveSlot.None?)
    && !(o.newMarket && o.archiveSlot.Some?)
    && ValueError(DatabaseFlag, o.database).None?
    && (o.database == DefaultDatabase || !host.isMemory(o.database))
    && (o.webRoot.Some? ==> ValueError(WebRootFlag, o.webRoot.value).None?)
    && (o.archiveSlot.Some? ==> ValueError(ArchiveSlotFlag, Unicode(o.archiveSlot.value)).None?)
    && ValidAddress(o.bindAddr, host)
  }

  /** The library's judgement agrees with what a socket address and a memory path can look like. */
  predicate Sensible(host: Host) { !host.isSocketAddr("") && !host.isMemory(DefaultDatabase) }

  lemma AddressNotEmpty(s: string, host: Host)
    requires Sensible(host) && ValidAddress(s, host)
    ensures s != ""
  {
  }

  lemma ServicesRoundTrip(s: Services)
    ensures ServicesOf(ServicesText(s)) == Some(s)
    ensures ValueError(ServicesFlag, Unicode(ServicesText(s))).None?
  {
    match s case WebUi => case Server => case All =>
  }

  function Expected(o: Options): Given {
    Given(Some(o.services), Some(o.bindAddr), o.webRoot, Some(o.database), o.newMarket, o.archiveSlot)
  }

  lemma SumOne(g: Given, x: Group, rest: seq<Group>)
    requires Fits(g, x)
    ensures Sum(g, [x] + rest) == Sum(Plus(g, x), rest)
  {
    assert ([x] + rest)[1..] == rest;
  }

  lemma GroupsSum(o: Options, host: Host)
    requires Sensible(host) && ValidOptions(o, host) && !StartsDashed(o.bindAddr)
    ensures Sum(Nothing, Groups(o)) == Some(Expected(o))
  {
    ServicesRoundTrip(o.services);
    AddressNotEmpty(o.bindAddr, host);
    var g0 := Nothing.(services := Some(o.services));
    var g1 := g0.(bind := Some(o.bindAddr));
    var g2 := g1.(database := Some(o.database));
    var tail := RootGroup(o) + (MarketGroup(o) + (SlotGroup(o) + []));
    var x1, x2 := Valued(BindFlag, Unicode(o.bindAddr)), Valued(DatabaseFlag, o.database);
    SumOne(Nothing, Valued(ServicesFlag, Unicode(ServicesText(o.services))), [x1] + ([x2] + tail));
    SumOne(g0, x1, [x2] + tail);
    SumOne(g1, x2, tail);
    OptionalSum(o, host, g2);
  }

  lemma OptionalSum(o: Options, host: Host, g: Given)
    requires ValidOptions(o, host)
    requires g == Nothing.(services := Some(o.services), bind := Some(o.bindAddr), database := Some(o.database))
    ensures Sum(g, RootGroup(o) + (MarketGroup(o) + (SlotGroup(o) + []))) == Some(Expected(o))
  {
    var g3 := g.(webRoot := o.webRoot);
    var g4 := g3.(newMarket := o.newMarket);
    SumOptional(g, RootGroup(o), MarketGroup(o) + (SlotGroup(o) + []), g3);
    SumOptional(g3, MarketGroup(o), SlotGroup(o) + [], g4);
    SumOptional(g4, SlotGroup(o), [], Expected(o));
  }

  lemma SumOptional(g: Given, xs: seq<Group>, rest: seq<Group>, after: Given)
    requires |xs| <= 1 && (xs == [] ==> after == g) && (xs != [] ==> Fits(g, xs[0]) && Plus(g, xs[0]) == after)
    ensures Sum(g, xs + rest) == Sum(after, rest)
  {
    if xs == [] {
      assert xs + rest == rest;
    } else {
      assert xs == [xs[0]];
      SumOne(g, xs[0], rest);
    }
  }

  /** Writing valid options as a command line and parsing it gives them back, in any environment, exactly
      when their address can be given on a command line: it does not start with a dash. Such an address can
      only come from the environment variable. */
  lemma RoundTrip(o: Options, host: Host)
    requires Sensible(host) && ValidOptions(o, host)
    ensures Parsing(Line(Groups(o)), host) == Ok(o) <==> !StartsDashed(o.bindAddr)
  {
    LineIsNoHelp(Groups(o));
    LineParses(Nothing, Groups(o));
    if StartsDashed(o.bindAddr) {
      ServicesRoundTrip(o.services);
      assert Groups(o)[1..][0] == Valued(BindFlag, Unicode(o.bindAddr));
      assert Sum(Nothing, Groups(o)) == None;
    } else {
      GroupsSum(o, host);
    }
  }

  // ---------------------------------------------------------------- what is accepted is valid

  /** Everything collected by the loop is a value its option accepts. */
  predicate Clean(g: Given) {
    && (g.bind.Some? ==> !StartsDashed(g.bind.value))
    && (g.webRoot.Some? ==> ValueError(WebRootFlag, g.webRoot.value).None?)
    && (g.database.Some? ==> ValueError(DatabaseFlag, g.database.value).None?)
    && (g.archiveSlot.Some? ==> ValueError(ArchiveSlotFlag, Unicode(g.archiveSlot.value)).None?)
    && !(g.newMarket && g.archiveSlot.Some?)
  }

  lemma WithKeepsClean(g: Given, f: Flag, value: OsText)
    requires Clean(g) && !Taken(g, f) && ValueError(f, value).None?
    ensures Clean(With(g, f, value))
  {
  }

  lemma {:induction false} ParsedIsClean(args: seq<OsText>, g: Given)
    requires Clean(g) && ParseFrom(args, g).Ok?
    ensures Clean(ParseFrom(args, g).value)
    decreases |args|
  {
    if args != [] {
      if args[0].s == NEW_MARKET {
        ParsedIsClean(args[1..], g.(newMarket := true));
      } else {
        var f := FlagOf(args[0].s).value;
        WithKeepsClean(g, f, args[1]);
        ParsedIsClean(args[2..], With(g, f, args[1]));
      }
    }
  }

  /** Whatever the parser accepts, other than a call for help, is valid. */
  lemma AcceptedIsValid(args: seq<OsText>, host: Host)
    requires Sensible(host) && !AsksForHelp(args) && Parsing(args, host).Ok?
    ensures ValidOptions(Parsing(args, host).value, host)
  {
    ParsedIsClean(args, Nothing);
  }

  // ---------------------------------------------------------------- exactly what is accepted

  /** Two options that cannot be given together: the same one twice, or both ways to start a market. */
  predicate Clash(a: Group, b: Group) {
    if a.NewMarket? then b.NewMarket? || b.flag.ArchiveSlotFlag?
    else if b.NewMarket? then a.flag.ArchiveSlotFlag?
    else a.flag == b.flag
  }

  /** A value its option takes: no dash in front, not empty, Unicode unless it is a path, one of the three
      service modes, or a slot name with something other than blanks and no NUL. */
  predicate Takes(f: Flag, value: OsText) {
    && (value.Unicode? ==> value.s != "" && value.s[0] != '-')
    && (value.NotUnicode? ==> f.WebRootFlag? || f.DatabaseFlag?)
    && (f.ServicesFlag? && value.Unicode? ==> value.s == "webui" || value.s == "server" || value.s == "all")
    && (f.ArchiveSlotFlag? && value.Unicode? ==>
          '\0' !in value.s && exists i :: 0 <= i < |value.s| && !IsWhite(value.s[i]))
  }

  lemma TakesExactly(f: Flag, value: OsText)
    ensures ValueError(f, value).None? <==> Takes(f, value)
  {
  }

  /** Every value suits its option, and no two options clash. */
  predicate Compatible(groups: seq<Group>) {
    && (forall i | 0 <= i < |groups| && groups[i].Valued? :: Takes(groups[i].flag, groups[i].value))
    && (forall i, j | 0 <= i < j < |groups| :: !Clash(groups[i], groups[j]))
  }

  lemma FitsAfter(g: Given, a: Group, x: Group)
    requires Fits(g, a)
    ensures Fits(Plus(g, a), x) <==> Fits(g, x) && !Clash(a, x)
  {
    if a.Valued? && x.Valued? {
      TakenWith(g, a.flag, a.value, x.flag);
    }
  }

  lemma {:induction false} SumExactly(g: Given, groups: seq<Group>)
    ensures Sum(g, groups).Some? <==> Compatible(groups) && forall i | 0 <= i < |groups| :: Fits(g, groups[i])
    decreases |groups|
  {
    forall x: Group | x.Valued? ensures ValueError(x.flag, x.value).None? <==> Takes(x.flag, x.value) {
      TakesExactly(x.flag, x.value);
    }
    if groups != [] {
      var a, rest := groups[0], groups[1..];
      assert forall i | 0 <= i < |rest| :: rest[i] == groups[i + 1];
      if Fits(g, a) {
        SumExactly(Plus(g, a), rest);
        forall i | 0 <= i < |rest| ensures Fits(Plus(g, a), rest[i]) <==> Fits(g, rest[i]) && !Clash(a, rest[i]) {
          FitsAfter(g, a, rest[i]);
        }
        SplitFirst(g, groups);
      }
    }
  }

  lemma SplitFirst(g: Given, groups: seq<Group>)
    requires groups != [] && Fits(g, groups[0])
    ensures (Compatible(groups) && forall i | 0 <= i < |groups| :: Fits(g, groups[i])) <==>
              && Compatible(groups[1..])
              && forall i | 0 <= i < |groups[1..]| :: Fits(g, groups[1..][i]) && !Clash(groups[0], groups[1..][i])
  {
    var rest := groups[1..];
    if groups[0].Valued? {
      TakesExactly(groups[0].flag, groups[0].value);
    }
    if Compatible(rest) && forall i | 0 <= i < |rest| :: Fits(g, rest[i]) && !Clash(groups[0], rest[i]) {
      forall i | 0 <= i < |groups| ensures Fits(g, groups[i]) {
        assert i > 0 ==> groups[i] == rest[i - 1];
      }
      forall i, j | 0 <= i < j < |groups| ensures !Clash(groups[i], groups[j]) {
        assert groups[j] == rest[j - 1] && (i > 0 ==> groups[i] == rest[i - 1]);
      }
      forall i | 0 <= i < |groups| && groups[i].Valued? ensures Takes(groups[i].flag, groups[i].value) {
        assert i > 0 ==> groups[i] == rest[i - 1];
      }
    }
    if Compatible(groups) && forall i | 0 <= i < |groups| :: Fits(g, groups[i]) {
      forall i | 0 <= i < |rest| ensures Fits(g, rest[i]) && !Clash(groups[0], rest[i]) {
        assert rest[i] == groups[i + 1];
      }
      forall i, j | 0 <= i < j < |rest| ensures !Clash(rest[i], rest[j]) {
        assert rest[i] == groups[i + 1] && rest[j] == groups[j + 1];
      }
    }
  }

  /** The value given for an option. */
  function ValueGiven(groups: seq<Group>, f: Flag): Option<OsText> {
    if groups == [] then None
    else if groups[0].Valued? && groups[0].flag == f then Some(groups[0].value)
    else ValueGiven(groups[1..], f)
  }

  lemma {:induction false} SumGives(g: Given, groups: seq<Group>, f: Flag)
    requires Sum(g, groups).Some?
    ensures var total := Sum(g, groups).value;
            match ValueGiven(groups, f)
            case None => Same(total, g, f)
            case Some(v) => ValueError(f, v).None? && Same(total, With(Nothing, f, v), f)
    ensures Sum(g, groups).value.newMarket <==> g.newMarket || NewMarket in groups
    decreases |groups|
  {
    if groups != [] {
      var a := groups[0];
      SumGives(Plus(g, a), groups[1..], f);
      assert NewMarket in groups <==> a == NewMarket || NewMarket in groups[1..];
      if a.Valued? && a.flag == f {
        OnceGiven(Plus(g, a), groups[1..], f);
      }
    }
  }

  /** Both have the same for this option. */
  predicate Same(g: Given, h: Given, f: Flag) {
    match f
    case ServicesFlag => g.services == h.services
    case BindFlag => g.bind == h.bind
    case WebRootFlag => g.webRoot == h.webRoot
    case DatabaseFlag => g.database == h.database
    case ArchiveSlotFlag => g.archiveSlot == h.archiveSlot
  }

  /** What has been taken is not given again. */
  lemma {:induction false} OnceGiven(g: Given, groups: seq<Group>, f: Flag)
    requires Sum(g, groups).Some? && Taken(g, f)
    ensures ValueGiven(groups, f).None?
    decreases |groups|
  {
    if groups != [] {
      OnceGiven(Plus(g, groups[0]), groups[1..], f);
    }
  }

  /** The service mode asked for; without one, everything that was compiled in. */
  function ServicesAsked(groups: seq<Group>, host: Host): Services {
    match ValueGiven(groups, ServicesFlag)
    case Some(Unicode("webui")) => WebUi
    case Some(Unicode("server")) => Server
    case Some(_) => All
    case None => if host.webUi then All else Server
  }

  /** The address asked for: on the command line, else in the environment, else the built-in one. */
  function AddressAsked(groups: seq<Group>, host: Host): Option<string> {
    match ValueGiven(groups, BindFlag)
    case Some(Unicode(s)) => Some(s)
    case Some(NotUnicode(_)) => None
    case None =>
      match host.environment
      case Set(s) => Some(s)
      case NotPresent => Some("127.0.0.1:3000")
      case EnvironmentNotUnicode => None
  }

  /** What a line of options must ask for, besides being compatible, to be accepted. */
  ghost predicate Granted(groups: seq<Group>, host: Host) {
    && (ServicesAsked(groups, host).Server? || host.webUi)
    && (NewMarket in groups || ValueGiven(groups, ArchiveSlotFlag).Some? ==> !ServicesAsked(groups, host).WebUi?)
    && (ValueGiven(groups, DatabaseFlag).Some? ==> !host.isMemory(ValueGiven(groups, DatabaseFlag).value))
    && AddressAsked(groups, host).Some?
    && (host.isSocketAddr(AddressAsked(groups, host).value) || IsHostPort(AddressAsked(groups, host).value))
  }

  /** The parser, exactly: a line of options is accepted if and only if they are compatible and granted, and
      every option then has the value that was given for it, or its default. */
  lemma AcceptedExactly(groups: seq<Group>, host: Host)
    ensures Parsing(Line(groups), host).Ok? <==> Compatible(groups) && Granted(groups, host)
    ensures Parsing(Line(groups), host).Ok? ==>
              var o := Parsing(Line(groups), host).value;
              && o.services == ServicesAsked(groups, host)
              && Some(o.bindAddr) == AddressAsked(groups, host)
              && o.webRoot == ValueGiven(groups, WebRootFlag)
              && o.database == (match ValueGiven(groups, DatabaseFlag)
                                case Some(d) => d case None => Unicode("data/stock-market-game.sqlite"))
              && o.newMarket == (NewMarket in groups)
              && (match ValueGiven(groups, ArchiveSlotFlag)
                  case Some(slot) => slot.Unicode? && o.archiveSlot == Some(slot.s) case None => o.archiveSlot.None?)
              && !o.help
  {
    LineIsNoHelp(groups);
    LineParses(Nothing, groups);
    CompatibleSums(groups);
    if Compatible(groups) {
      AskedFor(groups, host, Sum(Nothing, groups).value);
    }
  }

  lemma CompatibleSums(groups: seq<Group>)
    ensures Sum(Nothing, groups).Some? <==> Compatible(groups)
  {
    SumExactly(Nothing, groups);
    if Compatible(groups) {
      forall i | 0 <= i < |groups| ensures Fits(Nothing, groups[i]) {
        if groups[i].Valued? {
          TakesExactly(groups[i].flag, groups[i].value);
        }
      }
    }
  }

  /** What the options sum up to, in terms of what was asked for. */
  ghost predicate SumsUp(groups: seq<Group>, host: Host, total: Given) {
    && (match total.services case Some(s) => s case None => if host.webUi then All else Server)
       == ServicesAsked(groups, host)
    && total.bind == (match ValueGiven(groups, BindFlag) case Some(Unicode(s)) => Some(s) case _ => None)
    && (ValueGiven(groups, BindFlag).Some? ==> ValueGiven(groups, BindFlag).value.Unicode?)
    && total.webRoot == ValueGiven(groups, WebRootFlag) && total.database == ValueGiven(groups, DatabaseFlag)
    && total.newMarket == (NewMarket in groups)
    && (match ValueGiven(groups, ArchiveSlotFlag)
        case Some(slot) => slot.Unicode? && total.archiveSlot == Some(slot.s) case None => total.archiveSlot.None?)
  }

  lemma AskedFor(groups: seq<Group>, host: Host, total: Given)
    requires Sum(Nothing, groups) == Some(total)
    ensures SumsUp(groups, host, total)
  {
    SumGives(Nothing, groups, ServicesFlag);
    SumGives(Nothing, groups, BindFlag);
    SumGives(Nothing, groups, WebRootFlag);
    SumGives(Nothing, groups, DatabaseFlag);
    SumGives(Nothing, groups, ArchiveSlotFlag);
  }

  // ---------------------------------------------------------------- which error

  lemma {:induction false} ParsesOn(g: Given, groups: seq<Group>, rest: seq<OsText>)
    requires Sum(g, groups).Some?
    ensures ParseFrom(Line(groups) + rest, g) == ParseFrom(rest, Sum(g, groups).value)
    decreases |groups|
  {
    if groups == [] {
      assert Line(groups) + rest == rest;
    } else {
      FirstParsed(g, groups[0], Line(groups[1..]) + rest);
      FirstWords(groups, rest);
      ParsesOn(Plus(g, groups[0]), groups[1..], rest);
    }
  }

  lemma FirstWords(groups: seq<Group>, rest: seq<OsText>)
    requires groups != []
    ensures Line(groups) + rest == Words(groups[0]) + (Line(groups[1..]) + rest)
  {
  }

  lemma FirstParsed(g: Given, x: Group, more: seq<OsText>)
    requires Fits(g, x)
    ensures ParseFrom(Words(x) + more, g) == ParseFrom(more, Plus(g, x))
  {
    if x.Valued? {
      FlagTexts(x.flag);
      assert (Words(x) + more)[2..] == more;
    } else {
      assert (Words(x) + more)[1..] == more;
    }
  }

  /** One of the options cannot be given together with x. */
  predicate ClashWith(groups: seq<Group>, x: Group) { exists i :: 0 <= i < |groups| && Clash(groups[i], x) }

  lemma ClashSplits(groups: seq<Group>, x: Group)
    requires groups != []
    ensures ClashWith(groups, x) <==> Clash(groups[0], x) || ClashWith(groups[1..], x)
  {
    if ClashWith(groups[1..], x) {
      var i :| 0 <= i < |groups| - 1 && Clash(groups[1..][i], x);
      assert Clash(groups[i + 1], x);
    }
    if ClashWith(groups, x) && !Clash(groups[0], x) {
      var i :| 0 <= i < |groups| && Clash(groups[i], x);
      assert Clash(groups[1..][i - 1], x);
    }
  }

  /** A value that its option does not take: what is wrong with it, the first of these that applies. */
  function WrongValue(f: Flag, value: OsText): Error {
    if value.Unicode? && value.s != "" && value.s[0] == '-' then ValueIsOption(f)
    else if value == Unicode("") then EmptyValue(f)
    else if value.NotUnicode? then ValueNotUnicode(f)
    else if f.ArchiveSlotFlag? then BadSlot
    else BadServices
  }

  /** The error of a line is that of the first word that goes wrong behind compatible options. */
  lemma FirstErrorExactly(groups: seq<Group>, rest: seq<OsText>, f: Flag)
    requires Compatible(groups) && rest != []
    ensures rest[0].NotUnicode? ==> ParseFrom(Line(groups) + rest, Nothing) == Err(OptionNotUnicode)
    ensures rest[0] == Unicode("--new-market") && ClashWith(groups, NewMarket) ==>
              ParseFrom(Line(groups) + rest, Nothing) == Err(StartConflict)
    ensures rest[0].Unicode? && rest[0].s != "--new-market" && (forall h :: rest[0].s != FlagText(h)) ==>
              ParseFrom(Line(groups) + rest, Nothing) == Err(UnknownOption(rest[0].s))
    ensures rest[0] == Unicode(FlagText(f)) ==>
              if ClashWith(groups, Valued(f, Unicode(""))) then
                ParseFrom(Line(groups) + rest, Nothing) == Err(Repeated(f))
              else if |rest| == 1 then ParseFrom(Line(groups) + rest, Nothing) == Err(MissingValue(f))
              else !Takes(f, rest[1]) ==> ParseFrom(Line(groups) + rest, Nothing) == Err(WrongValue(f, rest[1]))
  {
    CompatibleSums(groups);
    ParsesOn(Nothing, groups, rest);
    TakenExactly(Nothing, groups, f);
    FirstError(rest, Sum(Nothing, groups).value, f);
  }

  lemma FirstError(rest: seq<OsText>, g: Given, f: Flag)
    requires rest != []
    ensures rest[0].NotUnicode? ==> ParseFrom(rest, g) == Err(OptionNotUnicode)
    ensures rest[0] == Unicode("--new-market") && (g.newMarket || g.archiveSlot.Some?) ==>
              ParseFrom(rest, g) == Err(StartConflict)
    ensures rest[0].Unicode? && rest[0].s != "--new-market" && (forall h :: rest[0].s != FlagText(h)) ==>
              ParseFrom(rest, g) == Err(UnknownOption(rest[0].s))
    ensures rest[0] == Unicode(FlagText(f)) ==>
              if Taken(g, f) then ParseFrom(rest, g) == Err(Repeated(f))
              else if |rest| == 1 then ParseFrom(rest, g) == Err(MissingValue(f))
              else !Takes(f, rest[1]) ==> ParseFrom(rest, g) == Err(WrongValue(f, rest[1]))
  {
    FlagTexts(f);
    if rest[0].Unicode? && FlagOf(rest[0].s).Some? {
      assert rest[0].s == FlagText(FlagOf(rest[0].s).value);
    }
    if |rest| > 1 {
      TakesExactly(f, rest[1]);
    }
  }

  lemma {:induction false} TakenExactly(g: Given, groups: seq<Group>, f: Flag)
    requires Sum(g, groups).Some?
    ensures var total := Sum(g, groups).value;
            && (Taken(total, f) <==> Taken(g, f) || ClashWith(groups, Valued(f, Unicode(""))))
            && (total.newMarket || total.archiveSlot.Some? <==>
                  g.newMarket || g.archiveSlot.Some? || ClashWith(groups, NewMarket))
    decreases |groups|
  {
    if groups != [] {
      var a, rest := groups[0], groups[1..];
      TakenExactly(Plus(g, a), rest, f);
      ClashSplits(groups, Valued(f, Unicode("")));
      ClashSplits(groups, NewMarket);
      if a.Valued? {
        TakenWith(g, a.flag, a.value, f);
      }
    }
  }

  /** Compatible options that are not granted: what is missing, the first of these that applies. */
  lemma RefusedFor(groups: seq<Group>, host: Host)
    requires Compatible(groups) && !Granted(groups, host)
    ensures Parsing(Line(groups), host)
            == Err(if !ServicesAsked(groups, host).Server? && !host.webUi then UnsupportedServices
                   else if ServicesAsked(groups, host).WebUi?
                           && (NewMarket in groups || ValueGiven(groups, ArchiveSlotFlag).Some?) then StartNeedsServer
                   else if ValueGiven(groups, DatabaseFlag).Some?
                           && host.isMemory(ValueGiven(groups, DatabaseFlag).value) then MemoryDatabase
                   else if AddressAsked(groups, host).None? then AddressNotUnicode
                   else BadAddress)
  {
    LineIsNoHelp(groups);
    LineParses(Nothing, groups);
    CompatibleSums(groups);
    AskedFor(groups, host, Sum(Nothing, groups).value);
  }

  /** Whatever is accepted, other than a call for help, is such a line of options: words that are no option,
      options without a value and words that are not Unicode are rejected. */
  lemma {:induction false} AcceptedIsLine(args: seq<OsText>, g: Given) returns (groups: seq<Group>)
    requires ParseFrom(args, g).Ok?
    ensures Line(groups) == args
    decreases |args|
  {
    if args == [] {
      groups := [];
    } else if args[0].s == NEW_MARKET {
      var rest := AcceptedIsLine(args[1..], g.(newMarket := true));
      groups := [NewMarket] + rest;
      assert groups[1..] == rest;
    } else {
      var f := FlagOf(args[0].s).value;
      var rest := AcceptedIsLine(args[2..], With(g, f, args[1]));
      groups := [Valued(f, args[1])] + rest;
      assert groups[1..] == rest && FlagText(f) == args[0].s;
      assert args == [args[0], args[1]] + args[2..];
    }
  }

  lemma AcceptedLines(args: seq<OsText>, host: Host)
    ensures Parsing(args, host).Ok? ==> AsksForHelp(args) || exists groups :: Line(groups) == args
    ensures args == [Unicode("--help")] || args == [Unicode("-h")] ==>
              Parsing(args, host).Ok? && Parsing(args, host).value.help
  {
    if !AsksForHelp(args) && Parsing(args, host).Ok? {
      var groups := AcceptedIsLine(args, Nothing);
    }
  }

  // ---------------------------------------------------------------- the shapes of texts

  const WHITE_SPACE: string :=
    "\t\n\U{b}\U{c}\r \U{85}\U{a0}\U{1680}\U{2000}\U{2001}\U{2002}\U{2003}\U{2004}\U{2005}\U{2006}"
    + "\U{2007}\U{2008}\U{2009}\U{200a}\U{2028}\U{2029}\U{202f}\U{205f}\U{3000}"

  const HOST_CHARACTERS: string :=
    "0123456789" + "abcdefghijklmnopqrstuvwxyz" + "ABCDEFGHIJKLMNOPQRSTUVWXYZ" + ".-_"

  lemma WhiteSpaceExactly(c: char)
    ensures IsWhite(c) <==> c in WHITE_SPACE
  {
  }

  lemma HostCharactersExactly(c: char)
    ensures HostChar(c) <==> c in HOST_CHARACTERS
  {
  }

  lemma ColonSplits(name: string, port: string)
    requires ':' !in port
    ensures var s := name + ":" + port; s[|name|] == ':' && s[|name| + 1..] == port && s[..|name|] == name
  {
  }

  /** A host and a port make an address exactly if the host has only letters, digits, dots, dashes and
      underscores, and at least one, and the port is a number below 2^16. */
  lemma HostPortExactly(name: string, port: nat)
    ensures IsHostPort(name + ":" + Print(port)) <==>
              name != "" && (forall c | c in name :: c in HOST_CHARACTERS) && port < 0x1_0000
  {
    var s := name + ":" + Print(port);
    ColonSplits(name, Print(port));
    LastColonUnique(s, |name|);
    ValueOfPrint(port);
    forall c ensures HostChar(c) <==> c in HOST_CHARACTERS {
      HostCharactersExactly(c);
    }
  }
}
