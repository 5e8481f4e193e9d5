/** The game state and the loop that applies commands to it: one
    battlemap, a single token slot, and an option-chaining merge for partial
    updates. */
module Game {
  import opened Wrappers
  import opened Text
  import opened Commands
  import opened Domain

  /** The battlemap the game starts with. */
  const PlaceholderImage: string := "./assets/bg_placeholder.jpg"
  const InitialRows: I32 := 12
  const InitialColumns: I32 := 20

  /** What a token gets for a field that neither the update nor a stored
      token supplies. */
  const DefaultImage: string := "./assets/unnamed.png"
  const DefaultName: string := "Unnamed"
  const DefaultSize: string := "small"
  const DefaultMaxHealth: I32 := 10
  const DefaultPos: string := "A1"
  const DefaultInitiative: I32 := 1

  /** The data part of `GameState`: the battlemap and one token slot. */
  datatype GameState = GameState(battlemap: Battlemap, token: Option<Token>)

  /** The result of applying commands: still running, or stopped by `Quit`
      (the source exits the process there). */
  datatype Outcome = Running(state: GameState) | Exited(state: GameState)

  /** `GameState::new`: the placeholder map, 12 rows by 20 columns, and no
      token. The map is small enough that every label `render_grid` draws
      on it is one the encoder can produce without panicking. */
  function InitialState(): (r: GameState)
    ensures r.token.None?
    ensures r.battlemap.rows > 0 && r.battlemap.columns > 0
    ensures GridLabelable(r.battlemap)
  {
    GameState(Battlemap(PlaceholderImage, InitialRows, InitialColumns), None)
  }

  // ---------------------------------------------------------------- merge

  /** A battlemap update: each supplied field wins, every other field is
      the previous map's. Rows stay rows and columns stay columns. */
  function MergeBattlemap(bm: Battlemap, o: BattlemapOpts): (r: Battlemap)
    ensures o.url.Some? ==> r.imagePath == o.url.value
    ensures o.url.None? ==> r.imagePath == bm.imagePath
    ensures o.rows.Some? ==> r.rows == o.rows.value
    ensures o.rows.None? ==> r.rows == bm.rows
    ensures o.columns.Some? ==> r.columns == o.columns.value
    ensures o.columns.None? ==> r.columns == bm.columns
  {
    Battlemap(o.url.UnwrapOr(bm.imagePath), o.rows.UnwrapOr(bm.rows), o.columns.UnwrapOr(bm.columns))
  }

  /** A token update: each field is the supplied value, or else the stored
      token's (whatever its id), or else the default. The id is always the
      update's. */
  function MergeToken(stored: Option<Token>, o: TokenOpts): (r: Token)
    ensures r.id == o.tokenId
  {
    Token(
      o.tokenId,
      o.image.Or(stored.Map((t: Token) => t.image)).UnwrapOr(DefaultImage),
      o.name.Or(stored.Map((t: Token) => t.name)).UnwrapOr(DefaultName),
      o.size.Or(stored.Map((t: Token) => t.size)).UnwrapOr(DefaultSize),
      o.maxHealth.Or(stored.Map((t: Token) => t.maxHealth)).UnwrapOr(DefaultMaxHealth),
      o.pos.Or(stored.Map((t: Token) => t.pos)).UnwrapOr(DefaultPos),
      o.initiative.Or(stored.Map((t: Token) => t.initiative)).UnwrapOr(DefaultInitiative))
  }

  /** With no stored token, omitted fields get the defaults. */
  lemma MergeTokenCreates(o: TokenOpts)
    ensures MergeToken(None, o) == Token(
      o.tokenId,
      o.image.UnwrapOr(DefaultImage),
      o.name.UnwrapOr(DefaultName),
      o.size.UnwrapOr(DefaultSize),
      o.maxHealth.UnwrapOr(DefaultMaxHealth),
      o.pos.UnwrapOr(DefaultPos),
      o.initiative.UnwrapOr(DefaultInitiative))
  {
  }

  /** With a stored token, omitted fields are inherited from it and no
      default is used. */
  lemma MergeTokenInherits(t: Token, o: TokenOpts)
    ensures MergeToken(Some(t), o) == Token(
      o.tokenId,
      o.image.UnwrapOr(t.image),
      o.name.UnwrapOr(t.name),
      o.size.UnwrapOr(t.size),
      o.maxHealth.UnwrapOr(t.maxHealth),
      o.pos.UnwrapOr(t.pos),
      o.initiative.UnwrapOr(t.initiative))
  {
  }

  /** There is one slot, so inheritance does not look at the stored id. */
  lemma MergeTokenIgnoresStoredId(t: Token, id: string, o: TokenOpts)
    ensures MergeToken(Some(t.(id := id)), o) == MergeToken(Some(t), o)
  {
  }

  /** Layering update `o2` over update `o1`: a field of `o2` wins, else the
      field of `o1`. */
  function LayerBattlemapOpts(o1: BattlemapOpts, o2: BattlemapOpts): BattlemapOpts {
    BattlemapOpts(o2.url.Or(o1.url), o2.rows.Or(o1.rows), o2.columns.Or(o1.columns))
  }

  function LayerTokenOpts(o1: TokenOpts, o2: TokenOpts): TokenOpts {
    TokenOpts(
      o2.tokenId,
      o2.image.Or(o1.image),
      o2.name.Or(o1.name),
      o2.size.Or(o1.size),
      o2.maxHealth.Or(o1.maxHealth),
      o2.pos.Or(o1.pos),
      o2.initiative.Or(o1.initiative))
  }

  /** Two battlemap updates in a row are one update with the second laid
      over the first. */
  lemma MergeBattlemapCompose(bm: Battlemap, o1: BattlemapOpts, o2: BattlemapOpts)
    ensures MergeBattlemap(MergeBattlemap(bm, o1), o2) == MergeBattlemap(bm, LayerBattlemapOpts(o1, o2))
  {
  }

  /** Two token updates in a row are one update with the second laid over
      the first. */
  lemma MergeTokenCompose(stored: Option<Token>, o1: TokenOpts, o2: TokenOpts)
    ensures MergeToken(Some(MergeToken(stored, o1)), o2) == MergeToken(stored, LayerTokenOpts(o1, o2))
  {
  }

  /** Repeating a battlemap update changes nothing more, and an update with
      no fields changes nothing at all. */
  lemma MergeBattlemapIdempotent(bm: Battlemap, o: BattlemapOpts)
    ensures MergeBattlemap(MergeBattlemap(bm, o), o) == MergeBattlemap(bm, o)
    ensures MergeBattlemap(bm, BattlemapOpts(None, None, None)) == bm
  {
  }

  /** Repeating a token update gives the token the first one gave. */
  lemma MergeTokenIdempotent(stored: Option<Token>, o: TokenOpts)
    ensures MergeToken(Some(MergeToken(stored, o)), o) == MergeToken(stored, o)
  {
  }

  // ---------------------------------------------------------------- run

  /** `run`: apply one command. `Quit` stops, help and rolls only print,
      and the two updates replace the battlemap or fill the token slot. */
  function Run(s: GameState, cmd: Command): (r: Outcome)
    ensures r.Exited? <==> cmd.Quit?
    ensures !cmd.UpdateBattlemap? ==> r.state.battlemap == s.battlemap
    ensures !cmd.UpdateToken? ==> r.state.token == s.token
    ensures cmd.UpdateToken? ==> r.state.token.Some? && r.state.token.value.id == cmd.tokenOpts.tokenId
    ensures cmd.UpdateBattlemap? ==> r.state.battlemap == MergeBattlemap(s.battlemap, cmd.battlemapOpts)
    ensures cmd.UpdateToken? ==> r.state.token == Some(MergeToken(s.token, cmd.tokenOpts))
  {
    match cmd
    case Quit => Exited(s)
    case PrintHelp => Running(s)
    case Role(_) => Running(s)
    case UpdateBattlemap(o) => Running(s.(battlemap := MergeBattlemap(s.battlemap, o)))
    case UpdateToken(o) => Running(s.(token := Some(MergeToken(s.token, o))))
  }

  /** A command keeps the grid drawable unless it is a battlemap update
      that leaves more than 702 columns and at least one row; after such an
      update the next `render_grid` panics. */
  lemma RunKeepsGridLabelable(s: GameState, cmd: Command)
    requires GridLabelable(s.battlemap)
    ensures GridLabelable(Run(s, cmd).state.battlemap) <==>
      (|| !cmd.UpdateBattlemap?
       || MergeBattlemap(s.battlemap, cmd.battlemapOpts).columns <= Chess.ColumnLimit
       || MergeBattlemap(s.battlemap, cmd.battlemapOpts).rows <= 0)
  {
    GridLabelableIff(Run(s, cmd).state.battlemap);
  }

  /** The command loop of `update`: parse results are applied in order, an
      error entry changes nothing, and the first `Quit` ends everything. */
  function Update<E>(s: GameState, rs: seq<Result<Command, E>>): (r: Outcome)
    ensures r.Exited? <==> exists i :: 0 <= i < |rs| && rs[i] == Success(Quit)
    decreases |rs|
  {
    if |rs| == 0 then Running(s)
    else
      assert forall i :: 1 <= i < |rs| ==> rs[i] == rs[1..][i - 1];
      match rs[0]
      case Failure(_) => Update(s, rs[1..])
      case Success(c) =>
        match Run(s, c)
        case Exited(t) => Exited(t)
        case Running(t) => Update(t, rs[1..])
  }

  /** Applying a list of results is applying its first part and then, if
      that did not quit, its second part. */
  lemma {:induction false} UpdateAppend<E>(s: GameState, a: seq<Result<Command, E>>, b: seq<Result<Command, E>>)
    ensures Update(s, a + b) ==
      match Update(s, a)
      case Exited(t) => Exited(t)
      case Running(t) => Update(t, b)
    decreases |a|
  {
    if |a| > 0 {
      assert (a + b)[1..] == a[1..] + b;
      match a[0]
      case Failure(_) =>
        UpdateAppend(s, a[1..], b);
      case Success(c) =>
        if !c.Quit? {
          UpdateAppend(Run(s, c).state, a[1..], b);
        }
    } else {
      assert a + b == b;
    }
  }

  /** The successful entries of a list of parse results, in order. */
  function Successes<E>(rs: seq<Result<Command, E>>): (cs: seq<Result<Command, E>>)
    ensures forall i :: 0 <= i < |cs| ==> cs[i].Success?
    ensures |cs| <= |rs|
  {
    if |rs| == 0 then []
    else if rs[0].Failure? then Successes(rs[1..])
    else [rs[0]] + Successes(rs[1..])
  }

  /** Error entries have no effect: only the successful commands count. */
  lemma {:induction false} UpdateIgnoresErrors<E>(s: GameState, rs: seq<Result<Command, E>>)
    ensures Update(s, rs) == Update(s, Successes(rs))
    decreases |rs|
  {
    if |rs| > 0 {
      match rs[0]
      case Failure(_) =>
        UpdateIgnoresErrors(s, rs[1..]);
      case Success(c) =>
        var cs := [rs[0]] + Successes(rs[1..]);
        assert cs[1..] == Successes(rs[1..]);
        if !c.Quit? {
          UpdateIgnoresErrors(Run(s, c).state, rs[1..]);
        }
    }
  }

  /** Commands that are neither battlemap nor token updates leave the
      battlemap and the token untouched, whether or not they quit. */
  lemma {:induction false} UpdateWithoutUpdatesKeepsState<E>(s: GameState, rs: seq<Result<Command, E>>)
    requires forall i :: 0 <= i < |rs| && rs[i].Success? ==>
      !rs[i].value.UpdateBattlemap? && !rs[i].value.UpdateToken?
    ensures Update(s, rs).state == s
    decreases |rs|
  {
    if |rs| > 0 {
      assert forall i :: 1 <= i < |rs| ==> rs[1..][i - 1] == rs[i];
      UpdateWithoutUpdatesKeepsState(s, rs[1..]);
    }
  }

  /** `update` for one received message: every line is parsed on its own and
      the results are applied in order. */
  function UpdateMessage(s: GameState, msg: string): (r: Outcome)
    ensures r.Exited? <==>
      exists i :: 0 <= i < |Lines(msg)| && ParseLine(Lines(msg)[i]) == Success(Quit)
  {
    Update(s, ParseEach(msg))
  }

  /** The parser of this version yields only quits, help and rolls, so no
      message changes the battlemap or the token. */
  lemma MessageKeepsState(s: GameState, msg: string)
    ensures UpdateMessage(s, msg).state == s
  {
    var rs := ParseEach(msg);
    forall i | 0 <= i < |rs| && rs[i].Success?
      ensures !rs[i].value.UpdateBattlemap? && !rs[i].value.UpdateToken?
    {
      ParseLineNoUpdates(Lines(msg)[i]);
    }
    UpdateWithoutUpdatesKeepsState(s, rs);
  }

  /** Repeating a battlemap or token update leaves the state the first one
      made. */
  lemma RunUpdateIdempotent(s: GameState, cmd: Command)
    requires cmd.UpdateBattlemap? || cmd.UpdateToken?
    ensures Run(Run(s, cmd).state, cmd) == Run(s, cmd)
  {
    match cmd
    case UpdateBattlemap(o) => MergeBattlemapIdempotent(s.battlemap, o);
    case UpdateToken(o) => MergeTokenIdempotent(s.token, o);
  }

  /** A first token update on a fresh game fills in the defaults, and a
      second one for the same id inherits the fields it omits. */
  lemma GoblinScenario()
    ensures
      var first := TokenOpts("goblin1", None, Some("Goblin"), None, None, None, None);
      var second := TokenOpts("goblin1", None, None, None, Some(5), None, None);
      var s1 := Run(InitialState(), UpdateToken(first)).state;
      var s2 := Run(s1, UpdateToken(second)).state;
      && s1.token == Some(Token("goblin1", DefaultImage, "Goblin", DefaultSize, 10, "A1", 1))
      && s2.token == Some(Token("goblin1", DefaultImage, "Goblin", DefaultSize, 5, "A1", 1))
      && s2.battlemap == Battlemap("./assets/bg_placeholder.jpg", 12, 20)
  {
  }
}
