/**
 * The coordinator's start-up: the command-line checks of `parse_arguments`
 * (over the options getopt returns, in order) and the initial values that
 * `initialize_shared_memory` gives the two shared regions.
 */
module Master {
  import opened Common
  import opened Wrappers
  import Utils
  import ReadSection

  /** `game_config_t`; a slot of `playerPaths` that the code never assigned is None. */
  datatype Config = Config(
    width: int,
    height: int,
    delay: int,
    timeout: int,
    seed: uint32,
    viewPath: Option<string>,
    playerPaths: seq<Option<string>>,
    playerCount: int)

  /** Why the program exits with a usage or range error. */
  datatype ParseError =
    | WidthTooSmall
    | HeightTooSmall
    | DelayOutOfRange
    | TimeoutOutOfRange
    | TooManyPlayers
    | UnknownOption(opt: char)
    | NoPlayers

  /** One result of getopt: the option character, its argument, and `optind` right after it. */
  datatype GetoptEvent = GetoptEvent(opt: char, optarg: string, optind: nat)

  /** getopt never leaves `optind` outside 1..argc. */
  predicate WellFormedEvents(events: seq<GetoptEvent>, argv: seq<string>) {
    forall e :: e in events ==> 1 <= e.optind <= |argv|
  }

  /** `isspace` in the C locale. */
  predicate IsSpace(c: char) {
    c == ' ' || c == '\t' || c == '\n' || c == '\U{B}' || c == '\U{C}' || c == '\r'
  }

  /** The value of the leading decimal digits of `s`, appended to `acc`. */
  function DigitsValue(s: string, acc: int): int
    decreases |s|
  {
    if |s| > 0 && '0' <= s[0] <= '9' then DigitsValue(s[1..], acc * 10 + (s[0] as int - '0' as int))
    else acc
  }

  /** `atoi`: skip white space, read an optional sign and the digits that follow. */
  function Atoi(s: string): int
    decreases |s|
  {
    if |s| > 0 && IsSpace(s[0]) then Atoi(s[1..])
    else if |s| > 0 && s[0] == '-' then -DigitsValue(s[1..], 0)
    else if |s| > 0 && s[0] == '+' then DigitsValue(s[1..], 0)
    else DigitsValue(s, 0)
  }

  /** The configuration before any option is read; `clock` stands for `time(NULL)`. */
  function Defaults(clock: int): Config {
    Config(DEFAULT_WIDTH, DEFAULT_HEIGHT, DEFAULT_DELAY, DEFAULT_TIMEOUT,
           clock % 0x1_0000_0000, None, [], 0)
  }

  /**
   * The player paths the loop at the `-p` option leaves: the loop guard is
   * `optind - 1 + i < argc` while the body also advances `optind` for every
   * `i > 0`, so at iteration `i > 0` the guard reads `optind + 2i - 2 < argc`
   * for the `optind` the loop started with.
   */
  function PlayerPathsAsWritten(argv: seq<string>, optarg: string, optind: int, count: nat): seq<Option<string>>
    requires 1 <= optind
  {
    seq(count, i requires 0 <= i < count =>
      if i == 0 then (if optind - 1 < |argv| then Some(optarg) else None)
      else if optind + 2 * i - 2 < |argv| then Some(argv[optind + i - 1])
      else None)
  }

  /** The loop of the `-p` case, as written: `player_paths[i] = (i == 0) ? optarg : argv[optind++]`. */
  method FillPlayerPaths(argv: seq<string>, optarg: string, optind: int, count: nat)
    returns (paths: seq<Option<string>>)
    requires 1 <= optind
    ensures paths == PlayerPathsAsWritten(argv, optarg, optind, count)
  {
    var slots := new Option<string>[count](_ => None);
    var next := optind;
    var i := 0;
    while i < count && next - 1 + i < |argv|
      invariant 0 <= i <= count
      invariant next == optind + (if i == 0 then 0 else i - 1)
      invariant forall j :: 0 <= j < i ==> slots[j] == PlayerPathsAsWritten(argv, optarg, optind, count)[j]
      invariant forall j :: i <= j < count ==> slots[j] == None
    {
      if i == 0 {
        slots[i] := Some(optarg);
      } else {
        slots[i] := Some(argv[next]);
        next := next + 1;
      }
      i := i + 1;
    }
    paths := slots[..];
  }

  /**
   * With `count = argc - optind + 1`, as the `-p` case computes it, the loop
   * fills exactly the slots `0..count / 2`.
   */
  lemma PathsAsWrittenFillHalf(argv: seq<string>, optarg: string, optind: int, i: int)
    requires 1 <= optind <= |argv|
    requires 0 <= i < |argv| - optind + 1
    ensures PlayerPathsAsWritten(argv, optarg, optind, |argv| - optind + 1)[i].Some? <==>
      i <= (|argv| - optind + 1) / 2
  {
  }

  /** With three or more paths after `-p` the last slot is never assigned. */
  lemma PathsAsWrittenLeaveLastSlotUnset(argv: seq<string>, optarg: string, optind: int)
    requires 1 <= optind <= |argv| && |argv| - optind + 1 >= 3
    ensures PlayerPathsAsWritten(argv, optarg, optind, |argv| - optind + 1)[|argv| - optind] == None
  {
    PathsAsWrittenFillHalf(argv, optarg, optind, |argv| - optind);
  }

  /**
   * The loop as the earlier, commented-out version wrote it: `optarg` first,
   * then `argv[optind++]` while `i < count && optind < argc`; every slot gets
   * the path at its position.
   */
  method FillPlayerPathsIntended(argv: seq<string>, optarg: string, optind: int, count: nat)
    returns (paths: seq<Option<string>>)
    requires 1 <= optind <= |argv| && count == |argv| - optind + 1
    ensures |paths| == count && paths[0] == Some(optarg)
    ensures forall i :: 1 <= i < count ==> paths[i] == Some(argv[optind - 1 + i])
  {
    var slots := new Option<string>[count](_ => None);
    slots[0] := Some(optarg);
    var next := optind;
    var i := 1;
    while i < count && next < |argv|
      invariant 1 <= i <= count
      invariant next == optind + i - 1
      invariant slots[0] == Some(optarg)
      invariant forall j :: 1 <= j < i ==> slots[j] == Some(argv[optind - 1 + j])
    {
      slots[i] := Some(argv[next]);
      next := next + 1;
      i := i + 1;
    }
    paths := slots[..];
  }

  /** One pass of the getopt loop: store the option's value, then check it. */
  function ApplyOption(cfg: Config, found: bool, e: GetoptEvent, argv: seq<string>): Result<(Config, bool), ParseError>
    requires 1 <= e.optind <= |argv|
  {
    match e.opt
    case 'w' =>
      var c := cfg.(width := Atoi(e.optarg));
      if c.width < MIN_BOARD_SIZE then Failure(WidthTooSmall) else Success((c, found))
    case 'h' =>
      var c := cfg.(height := Atoi(e.optarg));
      if c.height < MIN_BOARD_SIZE then Failure(HeightTooSmall) else Success((c, found))
    case 'd' =>
      var c := cfg.(delay := Atoi(e.optarg));
      if c.delay < 0 || c.delay > 5000 then Failure(DelayOutOfRange) else Success((c, found))
    case 't' =>
      var c := cfg.(timeout := Atoi(e.optarg));
      if c.timeout < 1 || c.timeout > 3600 then Failure(TimeoutOutOfRange) else Success((c, found))
    case 's' => Success((cfg.(seed := Atoi(e.optarg) % 0x1_0000_0000), found))
    case 'v' => Success((cfg.(viewPath := Some(e.optarg)), found))
    case 'p' =>
      var count := |argv| - e.optind + 1;
      if count > MAX_PLAYERS then Failure(TooManyPlayers)
      else Success((cfg.(playerCount := count,
                         playerPaths := PlayerPathsAsWritten(argv, e.optarg, e.optind, count)), true))
    case _ => Failure(UnknownOption(e.opt))
  }

  /** The rest of the getopt loop from `cfg`, then the final "at least one player" check. */
  function ParseOptions(cfg: Config, found: bool, events: seq<GetoptEvent>, argv: seq<string>): Result<Config, ParseError>
    requires WellFormedEvents(events, argv)
    decreases |events|
  {
    if events == [] then
      if !found || cfg.playerCount == 0 then Failure(NoPlayers) else Success(cfg)
    else
      match ApplyOption(cfg, found, events[0], argv)
      case Failure(err) => Failure(err)
      case Success((next, nowFound)) => ParseOptions(next, nowFound, events[1..], argv)
  }

  /** `parse_arguments`: defaults first, then each option in the order getopt returns it. */
  method ParseArguments(argv: seq<string>, events: seq<GetoptEvent>, clock: int)
    returns (r: Result<Config, ParseError>)
    requires WellFormedEvents(events, argv)
    ensures r == ParseOptions(Defaults(clock), false, events, argv)
  {
    var config := Config(DEFAULT_WIDTH, DEFAULT_HEIGHT, DEFAULT_DELAY, DEFAULT_TIMEOUT,
                         clock % 0x1_0000_0000, None, [], 0);
    var playersFound := false;
    var k := 0;
    while k < |events|
      invariant 0 <= k <= |events|
      invariant ParseOptions(Defaults(clock), false, events, argv) ==
                ParseOptions(config, playersFound, events[k..], argv)
    {
      var e := events[k];
      assert events[k..][1..] == events[k + 1..];
      match e.opt {
        case 'w' =>
          config := config.(width := Atoi(e.optarg));
          if config.width < MIN_BOARD_SIZE {
            return Failure(WidthTooSmall);
          }
        case 'h' =>
          config := config.(height := Atoi(e.optarg));
          if config.height < MIN_BOARD_SIZE {
            return Failure(HeightTooSmall);
          }
        case 'd' =>
          config := config.(delay := Atoi(e.optarg));
          if config.delay < 0 || config.delay > 5000 {
            return Failure(DelayOutOfRange);
          }
        case 't' =>
          config := config.(timeout := Atoi(e.optarg));
          if config.timeout < 1 || config.timeout > 3600 {
            return Failure(TimeoutOutOfRange);
          }
        case 's' =>
          config := config.(seed := Atoi(e.optarg) % 0x1_0000_0000);
        case 'v' =>
          config := config.(viewPath := Some(e.optarg));
        case 'p' =>
          playersFound := true;
          config := config.(playerCount := |argv| - e.optind + 1);
          if config.playerCount > MAX_PLAYERS {
            return Failure(TooManyPlayers);
          }
          var paths := FillPlayerPaths(argv, e.optarg, e.optind, config.playerCount);
          config := config.(playerPaths := paths);
        case _ =>
          return Failure(UnknownOption(e.opt));
      }
      k := k + 1;
    }
    if !playersFound || config.playerCount == 0 {
      return Failure(NoPlayers);
    }
    r := Success(config);
  }

  /** The option passes its own range check. */
  predicate Accepted(e: GetoptEvent, argv: seq<string>) {
    match e.opt
    case 'w' => Atoi(e.optarg) >= MIN_BOARD_SIZE
    case 'h' => Atoi(e.optarg) >= MIN_BOARD_SIZE
    case 'd' => 0 <= Atoi(e.optarg) <= 5000
    case 't' => 1 <= Atoi(e.optarg) <= 3600
    case 's' => true
    case 'v' => true
    case 'p' => |argv| - e.optind + 1 <= MAX_PLAYERS
    case _ => false
  }

  /** The error an option that fails its check exits with. */
  function Rejection(e: GetoptEvent): ParseError {
    match e.opt
    case 'w' => WidthTooSmall
    case 'h' => HeightTooSmall
    case 'd' => DelayOutOfRange
    case 't' => TimeoutOutOfRange
    case 'p' => TooManyPlayers
    case _ => UnknownOption(e.opt)
  }

  /** What every configuration that parsing returns satisfies. */
  ghost predicate ValidConfig(c: Config) {
    c.width >= MIN_BOARD_SIZE && c.height >= MIN_BOARD_SIZE &&
    0 <= c.delay <= 5000 && 1 <= c.timeout <= 3600 &&
    1 <= c.playerCount <= MAX_PLAYERS && |c.playerPaths| == c.playerCount
  }

  /** The part of ValidConfig that holds after every accepted option. */
  ghost predicate PartiallyValid(c: Config, found: bool) {
    c.width >= MIN_BOARD_SIZE && c.height >= MIN_BOARD_SIZE &&
    0 <= c.delay <= 5000 && 1 <= c.timeout <= 3600 &&
    (found ==> 1 <= c.playerCount <= MAX_PLAYERS && |c.playerPaths| == c.playerCount)
  }

  lemma {:induction false} ParseOptionsValid(cfg: Config, found: bool, events: seq<GetoptEvent>, argv: seq<string>)
    requires WellFormedEvents(events, argv) && PartiallyValid(cfg, found)
    decreases |events|
    ensures ParseOptions(cfg, found, events, argv).Success? ==> ValidConfig(ParseOptions(cfg, found, events, argv).value)
  {
    if events != [] {
      match ApplyOption(cfg, found, events[0], argv)
      case Failure(_) =>
      case Success((next, nowFound)) =>
        ParseOptionsValid(next, nowFound, events[1..], argv);
    }
  }

  /** A successful parse always yields a configuration inside every checked range. */
  lemma ParsedConfigIsValid(argv: seq<string>, events: seq<GetoptEvent>, clock: int)
    requires WellFormedEvents(events, argv)
    ensures ParseOptions(Defaults(clock), false, events, argv).Success? ==>
      ValidConfig(ParseOptions(Defaults(clock), false, events, argv).value)
  {
    ParseOptionsValid(Defaults(clock), false, events, argv);
  }

  /** One option fails exactly when it does not pass its check, and then with its own error. */
  lemma ApplyOptionAccepts(cfg: Config, found: bool, e: GetoptEvent, argv: seq<string>)
    requires 1 <= e.optind <= |argv|
    ensures ApplyOption(cfg, found, e, argv).Success? <==> Accepted(e, argv)
    ensures ApplyOption(cfg, found, e, argv).Failure? ==>
      ApplyOption(cfg, found, e, argv).error == Rejection(e)
    ensures ApplyOption(cfg, found, e, argv).Success? ==>
      var (next, nowFound) := ApplyOption(cfg, found, e, argv).value;
      nowFound == (found || e.opt == 'p') &&
      (if e.opt == 'p' then next.playerCount >= 1 else next.playerCount == cfg.playerCount)
  {
  }

  lemma {:induction false} AllAcceptedOutcome(cfg: Config, found: bool, events: seq<GetoptEvent>, argv: seq<string>)
    requires WellFormedEvents(events, argv)
    requires found ==> cfg.playerCount >= 1
    requires forall k :: 0 <= k < |events| ==> Accepted(events[k], argv)
    decreases |events|
    ensures ParseOptions(cfg, found, events, argv).Success? <==>
      found || exists k :: 0 <= k < |events| && events[k].opt == 'p'
    ensures ParseOptions(cfg, found, events, argv).Failure? ==>
      ParseOptions(cfg, found, events, argv) == Failure(NoPlayers)
  {
    if events != [] {
      ApplyOptionAccepts(cfg, found, events[0], argv);
      var (next, nowFound) := ApplyOption(cfg, found, events[0], argv).value;
      assert forall k :: 0 <= k < |events| - 1 ==> events[1..][k] == events[k + 1];
      AllAcceptedOutcome(next, nowFound, events[1..], argv);
      if exists k :: 0 <= k < |events| - 1 && events[1..][k].opt == 'p' {
        var k :| 0 <= k < |events| - 1 && events[1..][k].opt == 'p';
        assert events[k + 1].opt == 'p';
      }
      if exists k :: 0 <= k < |events| && events[k].opt == 'p' {
        var k :| 0 <= k < |events| && events[k].opt == 'p';
        if k > 0 {
          assert events[1..][k - 1].opt == 'p';
        }
      }
    }
  }

  lemma {:induction false} FirstRejectionDecides(cfg: Config, found: bool, events: seq<GetoptEvent>, argv: seq<string>, k: int)
    requires WellFormedEvents(events, argv)
    requires 0 <= k < |events| && !Accepted(events[k], argv)
    requires forall j :: 0 <= j < k ==> Accepted(events[j], argv)
    decreases k
    ensures ParseOptions(cfg, found, events, argv) == Failure(Rejection(events[k]))
  {
    ApplyOptionAccepts(cfg, found, events[0], argv);
    if k > 0 {
      var (next, nowFound) := ApplyOption(cfg, found, events[0], argv).value;
      assert forall j :: 0 <= j < |events| - 1 ==> events[1..][j] == events[j + 1];
      FirstRejectionDecides(next, nowFound, events[1..], argv, k - 1);
    }
  }

  /** The first option that fails its check, when some option does. */
  lemma FirstRejected(events: seq<GetoptEvent>, argv: seq<string>) returns (k: int)
    requires exists i :: 0 <= i < |events| && !Accepted(events[i], argv)
    ensures 0 <= k < |events| && !Accepted(events[k], argv)
    ensures forall j :: 0 <= j < k ==> Accepted(events[j], argv)
  {
    k := 0;
    while Accepted(events[k], argv)
      invariant 0 <= k < |events|
      invariant forall j :: 0 <= j < k ==> Accepted(events[j], argv)
      invariant exists i :: k <= i < |events| && !Accepted(events[i], argv)
      decreases |events| - k
    {
      k := k + 1;
    }
  }

  /**
   * Parsing succeeds exactly when every option passes its own check and some
   * `-p` was given; otherwise it fails with the error of the first option that
   * does not pass, or with NoPlayers when all pass but none is `-p`.
   */
  lemma ParseSucceedsIff(argv: seq<string>, events: seq<GetoptEvent>, clock: int)
    requires WellFormedEvents(events, argv)
    ensures ParseOptions(Defaults(clock), false, events, argv).Success? <==>
      (forall k :: 0 <= k < |events| ==> Accepted(events[k], argv)) &&
      (exists k :: 0 <= k < |events| && events[k].opt == 'p')
    ensures (forall k :: 0 <= k < |events| ==> Accepted(events[k], argv)) &&
            (forall k :: 0 <= k < |events| ==> events[k].opt != 'p') ==>
      ParseOptions(Defaults(clock), false, events, argv) == Failure(NoPlayers)
    ensures forall k :: 0 <= k < |events| && !Accepted(events[k], argv) &&
                        (forall j :: 0 <= j < k ==> Accepted(events[j], argv)) ==>
      ParseOptions(Defaults(clock), false, events, argv) == Failure(Rejection(events[k]))
  {
    if forall k :: 0 <= k < |events| ==> Accepted(events[k], argv) {
      AllAcceptedOutcome(Defaults(clock), false, events, argv);
    } else {
      var k := FirstRejected(events, argv);
      FirstRejectionDecides(Defaults(clock), false, events, argv, k);
    }
    forall k | 0 <= k < |events| && !Accepted(events[k], argv) &&
               (forall j :: 0 <= j < k ==> Accepted(events[j], argv))
      ensures ParseOptions(Defaults(clock), false, events, argv) == Failure(Rejection(events[k]))
    {
      FirstRejectionDecides(Defaults(clock), false, events, argv, k);
    }
  }

  /**
   * With only `-p` on the command line every other field keeps its default:
   * a 10x10 board, 200 ms delay, 10 s timeout, the clock as seed, no view.
   */
  lemma OnlyPlayersKeepsDefaults(argv: seq<string>, path: string, optind: nat, clock: int)
    requires 1 <= optind <= |argv| && |argv| - optind + 1 <= MAX_PLAYERS
    ensures
      var r := ParseOptions(Defaults(clock), false, [GetoptEvent('p', path, optind)], argv);
      r.Success? &&
      r.value.width == 10 && r.value.height == 10 && r.value.delay == 200 && r.value.timeout == 10 &&
      r.value.seed == clock % 0x1_0000_0000 && r.value.viewPath == None &&
      r.value.playerCount == |argv| - optind + 1 &&
      |r.value.playerPaths| == r.value.playerCount && r.value.playerPaths[0] == Some(path)
  {
  }

  /**
   * `initialize_shared_memory`: the state region is sized for the configured
   * `width * height` cells and its header copied from the configuration (the
   * dimensions stored as unsigned short); every semaphore gets its initial
   * count and the reader count starts at 0.
   */
  method InitializeSharedMemory(config: Config) returns (state: GameState, sync: GameSync)
    requires ValidConfig(config)
    ensures fresh(state) && fresh(state.board) && fresh(sync) && fresh(sync.playerCanMove)
    ensures state.Valid() && sync.Valid()
    ensures state.board.Length == config.width * config.height
    ensures state.width as int == config.width % 0x1_0000 && state.height as int == config.height % 0x1_0000
    ensures config.width < 0x1_0000 && config.height < 0x1_0000 ==>
      state.width as int == config.width && state.height as int == config.height
    ensures state.playerCount as int == config.playerCount && !state.finished
    ensures sync.viewNotify == 0 && sync.viewDone == 0
    ensures sync.masterAccess == 1 && sync.stateMutex == 1 && sync.readerCountMutex == 1
    ensures sync.readerCount == 0 && ReadSection.Gate(sync) == ReadSection.IDLE
    ensures forall i :: 0 <= i < MAX_PLAYERS ==> sync.playerCanMove[i] == 1
  {
    Utils.MulMonotone(0, config.width, config.height);
    state := new GameState.Zeroed(config.width * config.height);
    sync := new GameSync.Zeroed();

    state.width := config.width % 0x1_0000;
    state.height := config.height % 0x1_0000;
    state.playerCount := config.playerCount;
    state.finished := false;

    sync.viewNotify := 0;
    sync.viewDone := 0;
    sync.masterAccess := 1;
    sync.stateMutex := 1;
    sync.readerCountMutex := 1;
    sync.readerCount := 0;
    var gates := sync.playerCanMove;
    for i := 0 to MAX_PLAYERS
      modifies gates
      invariant forall j :: 0 <= j < i ==> gates[j] == 1
    {
      gates[i] := 1;
    }

    assert config.width == 0x1_0000 * (config.width / 0x1_0000) + state.width as int;
    assert config.height == 0x1_0000 * (config.height / 0x1_0000) + state.height as int;
    Utils.MulMonotone(state.width as int, config.width, state.height as int);
    Utils.MulMonotone(state.height as int, config.height, config.width);
  }
}
