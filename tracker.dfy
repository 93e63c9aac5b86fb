/**
 * The tracker's module-level state and the procedures that update it in place:
 * loading and saving the stats file, `init_player`, the four player handlers, the
 * event router, the dedup loop over new log lines, one poll of the events log, and
 * the passes of the monitoring loop.
 */
module Tracker {
  import opened Util
  import opened Text
  import opened Render
  import Stats
  import Skills
  import Ranking
  import Leaderboard
  import Events
  import Pipeline
  import Tail
  import Schedule

  /** What `player_stats.json` holds: the players in insertion order and the saved
      log positions. */
  datatype Snapshot = Snapshot(store: Stats.Store, filePositions: map<string, int>)

  /** The stats file as `load_player_stats` finds it. */
  datatype StoredFile = Missing | Unreadable | Readable(snapshot: Snapshot)

  /** The messages the given boards produce, in order; a board with nothing to show
      sends nothing. */
  function BoardMessages(s: Stats.Store, kinds: seq<string>): seq<Embed>
  {
    if kinds == [] then []
    else
      (match Leaderboard.SendLeaderboard(s, kinds[0])
       case Board(m) => [m]
       case _ => [])
      + BoardMessages(s, kinds[1..])
  }

  /** What one pass of the monitoring loop observes: a poll, with the server's
      replies, the wall clock and whether a save would succeed; a pass whose
      connection or login raised before the poll; a pass whose `quit` raised after
      the poll; or an interrupt. */
  datatype Pass =
    | Connected(size: Tail.SizeReply, retr: Tail.RetrReply, clock: Schedule.Clock, now: string, write: Write)
    | Failed
    | QuitFailed(size: Tail.SizeReply, retr: Tail.RetrReply, now: string)
    | Interrupted(write: Write)

  /** How a `save_player_stats` would end: the file written; `open(..., 'w')`
      failing, which leaves the old file; or `json.dump` failing after `open` has
      truncated the file, which leaves a file `load_player_stats` cannot read. */
  datatype Write = Written | OpenFailed | DumpFailed

  /** What one poll of the events log leaves behind: the handlers' state, the ids
      remembered, and the saved log positions. */
  datatype PollResult = PollResult(state: Stats.State, seen: set<string>, positions: map<string, int>)

  /** `monitor_discord_events_log` on values: fetch what was appended to the log at
      `path` since its saved position and, when that is non-empty text, commit the
      new position and scan the lines; otherwise nothing changes. */
  function PollLog(m: Stats.State, seen: set<string>, positions: map<string, int>, path: string,
                   size: Tail.SizeReply, retr: Tail.RetrReply, decode: string -> Pipeline.Line,
                   policy: string, now: string, trim: set<string> -> set<string>): (r: PollResult)
    requires Stats.Valid(m.store)
    ensures Stats.Valid(r.state.store)
  {
    var t := Tail.DownloadLogTail(size, retr, Get(positions, path, 0));
    if t.content.Some? && t.content.value != "" then
      var lines := Split(t.content.value, '\n');
      var r := Pipeline.ScanLines(m, seen, lines, decode, policy, now, trim);
      PollResult(r.state, r.seen, positions[path := t.position])
    else PollResult(m, seen, positions)
  }

  /** The module-level variables the monitoring loop changes, and the stats file. */
  datatype Globals = Globals(state: Stats.State, seen: set<string>, positions: map<string, int>, disk: StoredFile)

  /** `save_player_stats` on values. */
  function Save(g: Globals, w: Write): (r: Globals)
    ensures r.state.store == g.state.store && r.state.outbox == g.state.outbox
    ensures r.seen == g.seen && r.positions == g.positions
  {
    match w
    case Written => g.(state := g.state.(unsaved := false), disk := Readable(Snapshot(g.state.store, g.positions)))
    case OpenFailed => g
    case DumpFailed => g.(disk := Unreadable)
  }

  /** A write that succeeds leaves a file that loads back to the store and positions
      saved; one that fails in `json.dump` leaves a file that loads as empty; one
      that fails in `open` leaves the file as it was. Only a success clears the flag. */
  lemma SaveLoads(g: Globals, w: Write)
    ensures w.Written? ==> Save(g, w).disk == Readable(Snapshot(g.state.store, g.positions)) && !Save(g, w).state.unsaved
    ensures w.DumpFailed? ==> Save(g, w).disk == Unreadable && Save(g, w).state.unsaved == g.state.unsaved
    ensures w.OpenFailed? ==> Save(g, w) == g
  {
  }

  /** The interrupt: `if unsaved_changes: save_player_stats()`. */
  function Interrupt(g: Globals, w: Write): Globals
  {
    if g.state.unsaved then Save(g, w) else g
  }

  /** What a pass leaves and how the schedule sees it. */
  datatype PassResult = PassResult(globals: Globals, outcome: Schedule.Outcome)

  /** One pass of `monitor_server` that is not an interrupt, on values: a failed
      connection changes nothing; otherwise the log is polled, and after a poll whose
      `quit` succeeded the schedule sees the clock, whether anyone is tracked and
      whether changes are unsaved, its boards are sent, and the stats are saved when
      it says so. */
  function PassStep(g: Globals, pass: Pass, sched: Schedule.Sched, path: string, decode: string -> Pipeline.Line,
                    policy: string, trim: set<string> -> set<string>, interval: nat): (r: PassResult)
    requires Stats.Valid(g.state.store) && !pass.Interrupted?
    ensures Stats.Valid(r.globals.state.store)
  {
    match pass
    case Failed => PassResult(g, Schedule.Errored)
    case QuitFailed(size, retr, now) =>
      var q := PollLog(g.state, g.seen, g.positions, path, size, retr, decode, policy, now, trim);
      PassResult(Globals(q.state, q.seen, q.positions, g.disk), Schedule.Errored)
    case Connected(size, retr, clock, now, w) =>
      var q := PollLog(g.state, g.seen, g.positions, path, size, retr, decode, policy, now, trim);
      var o := Schedule.Polled(clock, q.state.store.players != map[], q.state.unsaved);
      var due := Schedule.Step(sched, o, interval);
      var sent := Globals(q.state.(outbox := q.state.outbox + BoardMessages(q.state.store, due.boards)), q.seen, q.positions, g.disk);
      PassResult(if due.save then Save(sent, w) else sent, o)
  }

  /** A pass counts as an error exactly when the connection or the `quit` failed; a
      failed connection changes nothing; the stats file changes only in a pass that
      got through and whose schedule said to save. */
  lemma PassStepFacts(g: Globals, pass: Pass, sched: Schedule.Sched, path: string, decode: string -> Pipeline.Line,
                      policy: string, trim: set<string> -> set<string>, interval: nat)
    requires Stats.Valid(g.state.store) && !pass.Interrupted?
    ensures var r := PassStep(g, pass, sched, path, decode, policy, trim, interval);
      && (r.outcome.Errored? <==> pass.Failed? || pass.QuitFailed?)
      && (pass.Failed? ==> r.globals == g)
      && (r.globals.disk == g.disk || (pass.Connected? && Schedule.Step(sched, r.outcome, interval).save))
  {
  }

  /** Where the monitoring loop ends, with the schedule's state and whether changes
      were unsaved when an interrupt arrived. */
  datatype Served = Served(globals: Globals, sched: Schedule.Sched, dirty: bool)

  /** `monitor_server`'s loop on values: the passes in turn until they run out or an
      interrupt arrives, which saves unsaved changes and ends the loop. */
  function Serving(g: Globals, sched: Schedule.Sched, passes: seq<Pass>, path: string, decode: string -> Pipeline.Line,
                   policy: string, trim: set<string> -> set<string>, interval: nat): (r: Served)
    requires Stats.Valid(g.state.store)
    ensures Stats.Valid(r.globals.state.store)
    decreases |passes|
  {
    if passes == [] then Served(g, sched, false)
    else if passes[0].Interrupted? then Served(Interrupt(g, passes[0].write), sched, g.state.unsaved)
    else
      var p := PassStep(g, passes[0], sched, path, decode, policy, trim, interval);
      Serving(p.globals, Schedule.Step(sched, p.outcome, interval).next, passes[1..], path, decode, policy, trim, interval)
  }

  /** What the loop has recorded for the passes it has run: an error outcome exactly
      for a failed connection or a failed `quit`, a poll's clock from its pass, and
      each sleep the schedule's decision after that pass. */
  ghost predicate Logged(passes: seq<Pass>, outcomes: seq<Schedule.Outcome>, sleeps: seq<nat>, interval: nat)
  {
    && |outcomes| <= |passes| && |sleeps| == |outcomes|
    && (forall k :: 0 <= k < |outcomes| ==>
          (outcomes[k].Errored? <==> passes[k].Failed? || passes[k].QuitFailed?)
          && (outcomes[k].Polled? ==> passes[k].Connected? && outcomes[k].clock == passes[k].clock))
    && (forall k :: 0 <= k < |outcomes| ==>
          sleeps[k] == Schedule.Step(Schedule.Run(Schedule.Initial(), outcomes[..k], interval), outcomes[k], interval).sleep)
  }

  /** Recording one more pass keeps the log consistent. */
  lemma LoggedSnoc(passes: seq<Pass>, outcomes: seq<Schedule.Outcome>, sleeps: seq<nat>, o: Schedule.Outcome,
                   plan: Schedule.Plan, interval: nat)
    requires Logged(passes, outcomes, sleeps, interval) && |outcomes| < |passes|
    requires (o.Errored? <==> passes[|outcomes|].Failed? || passes[|outcomes|].QuitFailed?)
    requires o.Polled? ==> passes[|outcomes|].Connected? && o.clock == passes[|outcomes|].clock
    requires plan == Schedule.Step(Schedule.Run(Schedule.Initial(), outcomes, interval), o, interval)
    ensures Logged(passes, outcomes + [o], sleeps + [plan.sleep], interval)
    ensures plan.next == Schedule.Run(Schedule.Initial(), outcomes + [o], interval)
  {
    Schedule.RunSnoc(Schedule.Initial(), outcomes, o, interval);
    assert (outcomes + [o])[..|outcomes|] == outcomes;
    assert forall k :: 0 <= k < |outcomes| ==> (outcomes + [o])[..k] == outcomes[..k];
  }

  /** The loop on values only reports unsaved changes when an interrupt arrived, and
      keeps the error counter below five. */
  lemma {:induction false} ServingFacts(g: Globals, sched: Schedule.Sched, passes: seq<Pass>, path: string,
                                        decode: string -> Pipeline.Line, policy: string,
                                        trim: set<string> -> set<string>, interval: nat)
    requires Stats.Valid(g.state.store) && sched.consecutiveErrors < Schedule.MaxErrors
    ensures var r := Serving(g, sched, passes, path, decode, policy, trim, interval);
      && (r.dirty ==> exists j :: 0 <= j < |passes| && passes[j].Interrupted?)
      && r.sched.consecutiveErrors < Schedule.MaxErrors
    decreases |passes|
  {
    if passes != [] && !passes[0].Interrupted? {
      var p := PassStep(g, passes[0], sched, path, decode, policy, trim, interval);
      Schedule.ErrorsStayBelowMax(sched, p.outcome, interval);
      ServingFacts(p.globals, Schedule.Step(sched, p.outcome, interval).next, passes[1..], path, decode, policy, trim, interval);
      var r := Serving(p.globals, Schedule.Step(sched, p.outcome, interval).next, passes[1..], path, decode, policy, trim, interval);
      if r.dirty {
        var j :| 0 <= j < |passes[1..]| && passes[1..][j].Interrupted?;
        assert passes[j + 1].Interrupted?;
      }
    }
  }

  class StatsTracker {
    var order: seq<string>
    var players: map<string, Stats.PlayerRecord>
    var filePositions: map<string, int>
    var lastEvents: set<string>
    var unsavedChanges: bool
    /** The messages handed to the chat webhook so far. */
    var outbox: seq<Embed>
    /** The stats file on disk. */
    var disk: StoredFile

    function Store(): Stats.Store
      reads this
    {
      Stats.Store(order, players)
    }

    function Model(): Stats.State
      reads this
    {
      Stats.State(Store(), unsavedChanges, outbox)
    }

    ghost predicate Valid()
      reads this
    {
      Stats.Valid(Store())
    }

    function Vars(): Globals
      reads this
    {
      Globals(Model(), lastEvents, filePositions, disk)
    }

    /** `load_player_stats` at start-up: a missing or unreadable file leaves the
        store empty. A readable file always has distinct player names (they are the
        keys of a JSON object). */
    constructor Load(file: StoredFile)
      requires file.Readable? ==> Stats.Valid(file.snapshot.store)
      ensures Valid()
      ensures Store() == (if file.Readable? then file.snapshot.store else Stats.Empty())
      ensures filePositions == (if file.Readable? then file.snapshot.filePositions else map[])
      ensures lastEvents == {} && !unsavedChanges && outbox == [] && disk == file
    {
      if file.Readable? {
        order := file.snapshot.store.order;
        players := file.snapshot.store.players;
        filePositions := file.snapshot.filePositions;
      } else {
        order := [];
        players := map[];
        filePositions := map[];
      }
      lastEvents := {};
      unsavedChanges := false;
      outbox := [];
      disk := file;
    }

    /** `save_player_stats`: a write that succeeds stores the players and positions
        and clears the flag; one that fails in `open` changes nothing; one that fails
        in `json.dump` leaves the file truncated, which `Load` reads as empty. */
    method SaveStats(w: Write)
      modifies this
      ensures w.Written? ==> disk == Readable(Snapshot(Store(), filePositions)) && !unsavedChanges
      ensures w.OpenFailed? ==> disk == old(disk) && unsavedChanges == old(unsavedChanges)
      ensures w.DumpFailed? ==> disk == Unreadable && unsavedChanges == old(unsavedChanges)
      ensures order == old(order) && players == old(players) && filePositions == old(filePositions)
      ensures lastEvents == old(lastEvents) && outbox == old(outbox)
      ensures Vars() == Save(old(Vars()), w)
    {
      match w
      case Written =>
        disk := Readable(Snapshot(Store(), filePositions));
        unsavedChanges := false;
      case OpenFailed =>
      case DumpFailed =>
        disk := Unreadable;
    }

    /** `init_player`. */
    method InitPlayer(username: string, steamId: string)
      requires Valid()
      modifies this
      ensures Valid()
      ensures Store() == Stats.InitPlayer(old(Store()), username, steamId)
      ensures unsavedChanges == old(unsavedChanges) && outbox == old(outbox)
      ensures filePositions == old(filePositions) && lastEvents == old(lastEvents) && disk == old(disk)
    {
      if username !in players {
        players := players[username := Stats.NewRecord(steamId)];
        order := order + [username];
      }
    }

    /** `handle_death_event`; `raised` when the skill summary does not parse, after
        the death, hours and location are recorded. */
    method HandleDeath(e: Stats.DeathReport) returns (raised: bool)
      requires Valid()
      modifies this
      ensures Valid()
      ensures Model() == Stats.Death(old(Model()), e).state && raised == Stats.Death(old(Model()), e).raised
      ensures filePositions == old(filePositions) && lastEvents == old(lastEvents) && disk == old(disk)
    {
      ghost var st0 := Model();
      InitPlayer(e.username, e.steamId);
      ghost var s := Store();
      MarkDead(e);
      ghost var marked := players[e.username];
      Stats.DeathSteps(st0, e, s, marked);
      var parsed := Skills.ParseSkillsString(e.skills);
      if parsed.Failure? {
        assert players == s.players[e.username := marked];
        return true;
      }
      ghost var recorded := Stats.DeathRecorded(marked, e, parsed.value);
      RecordDeath(e, parsed.value);
      assert players == s.players[e.username := recorded];
      raised := false;
    }

    /** The part of `handle_death_event` before the skill summary is parsed: one
        more death, and the character marked dead with its hours and location. */
    method MarkDead(e: Stats.DeathReport)
      requires e.username in players
      modifies this
      ensures players == old(players)[e.username := Stats.DeathMarked(old(players)[e.username], e)]
      ensures order == old(order) && unsavedChanges == old(unsavedChanges) && outbox == old(outbox)
      ensures filePositions == old(filePositions) && lastEvents == old(lastEvents) && disk == old(disk)
    {
      var p := players[e.username];
      p := p.(totalDeaths := p.totalDeaths + 1);
      p := p.(current := p.current.(alive := false, hoursSurvived := e.hours, lastLocation := e.location));
      players := players[e.username := p];
    }

    /** The part after a successful parse to `al`: the skills replaced, the hours
        added to the lifetime total, the longest survival raised when beaten, and
        the death message sent. */
    method RecordDeath(e: Stats.DeathReport, al: Skills.SkillList)
      requires e.username in players
      modifies this
      ensures var p := Stats.DeathRecorded(old(players)[e.username], e, al);
        && players == old(players)[e.username := p]
        && unsavedChanges
        && outbox == old(outbox) + [Stats.DeathNotice(e.username, p, e.hours, e.location, al)]
      ensures order == old(order)
      ensures filePositions == old(filePositions) && lastEvents == old(lastEvents) && disk == old(disk)
    {
      var p := players[e.username];
      p := p.(current := p.current.(skills := Skills.AsMap(al)));
      var life := p.lifetime.(totalHoursSurvived := p.lifetime.totalHoursSurvived + e.hours);
      if e.hours > life.longestSurvival {
        life := life.(longestSurvival := e.hours);
      }
      p := p.(lifetime := life);
      players := players[e.username := p];
      unsavedChanges := true;
      outbox := outbox + [Stats.DeathNotice(e.username, p, e.hours, e.location, al)];
    }

    /** `handle_spawn_event`; `now` is the spawn time recorded. */
    method HandleSpawn(e: Stats.SpawnReport, now: string)
      requires Valid()
      modifies this
      ensures Valid()
      ensures Model() == Stats.Spawn(old(Model()), e, now).state && !Stats.Spawn(old(Model()), e, now).raised
      ensures filePositions == old(filePositions) && lastEvents == old(lastEvents) && disk == old(disk)
    {
      InitPlayer(e.username, e.steamId);
      var p := players[e.username];
      p := p.(totalRespawns := p.totalRespawns + 1);
      p := p.(current := Stats.Character(true, Some(now), 0.0, e.location, map[]));
      players := players[e.username := p];
      unsavedChanges := true;
      outbox := outbox + [Stats.RespawnNotice(e.username, p)];
    }

    /** `handle_level_up_event` under the notification policy `policy`. */
    method HandleLevelUp(e: Stats.LevelUpReport, policy: string)
      requires Valid()
      modifies this
      ensures Valid()
      ensures Model() == Stats.LevelUp(old(Model()), e, policy).state && !Stats.LevelUp(old(Model()), e, policy).raised
      ensures filePositions == old(filePositions) && lastEvents == old(lastEvents) && disk == old(disk)
    {
      ghost var st0 := Model();
      InitPlayer(e.username, e.steamId);
      ghost var s := Store();
      Stats.LevelUpSteps(st0, e, policy, s);
      var p := players[e.username];
      ghost var p0 := p;
      p := p.(current := p.current.(skills := p.current.skills[e.skill := e.level]));
      p := p.(current := p.current.(hoursSurvived := e.hours));
      var currentMilestone := Get(p.lifetime.skillMilestones, e.skill, 0);
      if e.level > currentMilestone {
        p := p.(lifetime := p.lifetime.(skillMilestones := p.lifetime.skillMilestones[e.skill := e.level]));
      }
      players := players[e.username := p];
      assert p == Stats.Leveled(p0, e);
      assert Store() == Stats.Update(s, e.username, p);
      unsavedChanges := true;
      var shouldNotify := false;
      if policy == "all" {
        shouldNotify := true;
      } else if policy == "milestones" && e.level in Stats.SkillMilestones {
        shouldNotify := true;
      }
      assert shouldNotify == Stats.ShouldNotify(policy, e.level);
      if shouldNotify {
        outbox := outbox + [Stats.SkillNotice(e.username, e.skill, e.level, e.hours)];
      }
    }

    /** `handle_login_event`; `raised` when the skill summary does not parse, after
        `init_player` only. */
    method HandleLogin(e: Stats.LoginReport) returns (raised: bool)
      requires Valid()
      modifies this
      ensures Valid()
      ensures Model() == Stats.Login(old(Model()), e).state && raised == Stats.Login(old(Model()), e).raised
      ensures filePositions == old(filePositions) && lastEvents == old(lastEvents) && disk == old(disk)
    {
      InitPlayer(e.username, e.steamId);
      var parsed := Skills.ParseSkillsString(e.skills);
      if parsed.Failure? {
        return true;
      }
      var p := players[e.username];
      p := p.(current := p.current.(skills := Skills.AsMap(parsed.value), alive := true, hoursSurvived := e.hours));
      players := players[e.username := p];
      unsavedChanges := true;
      raised := false;
    }

    /** `send_daily_survivor_report`: the survivors list is sorted in place by hours,
        highest first, before the report is built. */
    method SendDailyReport(gameDay: int, survivors: seq<Leaderboard.Survivor>)
      modifies this
      ensures outbox == old(outbox) + (match Leaderboard.DailyReport(gameDay, survivors) case Some(m) => [m] case None => [])
      ensures order == old(order) && players == old(players) && unsavedChanges == old(unsavedChanges)
      ensures filePositions == old(filePositions) && lastEvents == old(lastEvents) && disk == old(disk)
    {
      if survivors == [] {
        return;
      }
      var a := new Leaderboard.Survivor[|survivors|](i requires 0 <= i < |survivors| => survivors[i]);
      assert a[..] == survivors;
      Ranking.SortInPlace(a, Leaderboard.SurvivorHours);
      outbox := outbox + [Leaderboard.ReportOfSorted(gameDay, a[..])];
    }

    /** `send_leaderboard(kind)`; `raised` for an unknown kind with a non-empty store,
        where the source reaches `send_discord_notification(embed)` with `embed` unbound. */
    method SendLeaderboard(kind: string) returns (raised: bool)
      modifies this
      ensures var b := Leaderboard.SendLeaderboard(old(Store()), kind);
        && outbox == old(outbox) + (if b.Board? then [b.embed] else [])
        && raised == b.UnknownBoard?
      ensures order == old(order) && players == old(players) && unsavedChanges == old(unsavedChanges)
      ensures filePositions == old(filePositions) && lastEvents == old(lastEvents) && disk == old(disk)
    {
      raised := false;
      match Leaderboard.SendLeaderboard(Store(), kind)
      case NoBoard =>
      case Board(m) =>
        outbox := outbox + [m];
      case UnknownBoard =>
        raised := true;
    }

    /** The scheduled boards, one `send_leaderboard` after another. */
    method SendBoards(kinds: seq<string>)
      modifies this
      ensures outbox == old(outbox) + BoardMessages(old(Store()), kinds)
      ensures order == old(order) && players == old(players) && unsavedChanges == old(unsavedChanges)
      ensures filePositions == old(filePositions) && lastEvents == old(lastEvents) && disk == old(disk)
    {
      var i := 0;
      while i < |kinds|
        invariant 0 <= i <= |kinds|
        invariant outbox + BoardMessages(Store(), kinds[i..]) == old(outbox) + BoardMessages(old(Store()), kinds)
        invariant order == old(order) && players == old(players) && unsavedChanges == old(unsavedChanges)
        invariant filePositions == old(filePositions) && lastEvents == old(lastEvents) && disk == old(disk)
      {
        assert kinds[i..][0] == kinds[i] && kinds[i..][1..] == kinds[i + 1..];
        var _ := SendLeaderboard(kinds[i]);
        i := i + 1;
      }
    }

    /** `handle_discord_event`: the router, with `raised` when the handler raised. */
    method HandleDiscordEvent(ev: Events.Event, policy: string, now: string) returns (raised: bool)
      requires Valid()
      modifies this
      ensures Valid()
      ensures var h := Events.Route(old(Model()), ev.payload, policy, now);
        Model() == h.state && raised == h.raised
      ensures filePositions == old(filePositions) && lastEvents == old(lastEvents) && disk == old(disk)
    {
      var p := ev.payload;
      if p.Death? || p.LevelUp? || p.CharacterCreated? || p.Login? {
        raised := HandlePlayerEvent(p, policy, now);
      } else {
        raised := HandleNotice(p, policy, now);
      }
    }

    /** The four events about a player, each passed to its handler. */
    method HandlePlayerEvent(p: Events.Payload, policy: string, now: string) returns (raised: bool)
      requires Valid()
      requires p.Death? || p.LevelUp? || p.CharacterCreated? || p.Login?
      modifies this
      ensures Valid()
      ensures var h := Events.Route(old(Model()), p, policy, now);
        Model() == h.state && raised == h.raised
      ensures filePositions == old(filePositions) && lastEvents == old(lastEvents) && disk == old(disk)
    {
      raised := false;
      match p
      case Death(d) =>
        Events.RouteDeath(Model(), d, policy, now);
        raised := HandleDeath(d);
      case LevelUp(l) =>
        Events.RouteLevelUp(Model(), l, policy, now);
        HandleLevelUp(l, policy);
      case CharacterCreated(c) =>
        Events.RouteSpawn(Model(), c, policy, now);
        HandleSpawn(c, now);
      case Login(l) =>
        Events.RouteLogin(Model(), l, policy, now);
        raised := HandleLogin(l);
    }

    /** The other events: day and night notices, the daily report, a requested
        leaderboard; an unknown type is ignored. */
    method HandleNotice(p: Events.Payload, policy: string, now: string) returns (raised: bool)
      requires Valid()
      requires !p.Death? && !p.LevelUp? && !p.CharacterCreated? && !p.Login?
      modifies this
      ensures Valid()
      ensures var h := Events.Route(old(Model()), p, policy, now);
        Model() == h.state && raised == h.raised
      ensures filePositions == old(filePositions) && lastEvents == old(lastEvents) && disk == old(disk)
    {
      raised := false;
      match p
      case Sunrise(day, light) =>
        outbox := outbox + [SunriseNotice(day, light)];
      case Sunset(day, light) =>
        outbox := outbox + [SunsetNotice(day, light)];
      case DailySurvivors(day, _, survivors) =>
        SendDailyReport(day, survivors);
      case LeaderboardRequest(kind) =>
        raised := SendLeaderboard(kind);
      case Other(_) =>
    }

    /** One pass of the loop body in `monitor_discord_events_log`. */
    method ProcessLine(line: string, decode: string -> Pipeline.Line, policy: string, now: string,
                       trim: set<string> -> set<string>) returns (raised: bool)
      requires Valid()
      modifies this
      ensures Valid()
      ensures var r := Pipeline.ScanLine(old(Model()), old(lastEvents), line, decode, policy, now, trim);
        Model() == r.state && lastEvents == r.seen && raised == r.raised
      ensures filePositions == old(filePositions) && disk == old(disk)
      ensures old(outbox) <= outbox
    {
      Pipeline.ScanLineAppends(Model(), lastEvents, line, decode, policy, now, trim);
      raised := false;
      var text := Strip(line);
      if text == "" {
        return;
      }
      match decode(text)
      case Malformed =>
      case Decoded(ev) =>
        var id := Events.EventId(ev);
        if id !in lastEvents {
          lastEvents := lastEvents + {id};
          raised := HandleDiscordEvent(ev, policy, now);
          if !raised && |lastEvents| > Pipeline.MaxRemembered {
            lastEvents := trim(lastEvents);
          }
        }
    }

    /** The per-line loop of `monitor_discord_events_log`, with the id set kept at
        module level. A handler that raises ends the batch; the rest of the lines are
        dropped. `trim` chooses the 1000 ids kept. */
    method ProcessLines(lines: seq<string>, decode: string -> Pipeline.Line, policy: string, now: string,
                        trim: set<string> -> set<string>) returns (raised: bool)
      requires Valid()
      modifies this
      ensures Valid()
      ensures var r := Pipeline.ScanLines(old(Model()), old(lastEvents), lines, decode, policy, now, trim);
        Model() == r.state && lastEvents == r.seen && raised == r.raised
      ensures filePositions == old(filePositions) && disk == old(disk)
      ensures old(outbox) <= outbox
    {
      ghost var goal := Pipeline.ScanLines(Model(), lastEvents, lines, decode, policy, now, trim);
      var i := 0;
      while i < |lines|
        invariant 0 <= i <= |lines|
        invariant Valid()
        invariant Pipeline.ScanLines(Model(), lastEvents, lines[i..], decode, policy, now, trim) == goal
        invariant filePositions == old(filePositions) && disk == old(disk)
        invariant old(outbox) <= outbox
      {
        assert lines[i..][0] == lines[i] && lines[i..][1..] == lines[i + 1..];
        raised := ProcessLine(lines[i], decode, policy, now, trim);
        if raised {
          return;
        }
        i := i + 1;
      }
      raised := false;
    }

    /** `monitor_discord_events_log`: fetch what was appended to the log at `path`
        since the saved position and, when that is non-empty text, commit the new
        position first and then scan the lines. An exception from a handler is
        swallowed here. */
    method MonitorEventsLog(path: string, size: Tail.SizeReply, retr: Tail.RetrReply, decode: string -> Pipeline.Line,
                            policy: string, now: string, trim: set<string> -> set<string>)
      requires Valid()
      modifies this
      ensures Valid()
      ensures PollResult(Model(), lastEvents, filePositions)
        == PollLog(old(Model()), old(lastEvents), old(filePositions), path, size, retr, decode, policy, now, trim)
      ensures disk == old(disk) && old(outbox) <= outbox
    {
      var lastPos := Get(filePositions, path, 0);
      var t := Tail.DownloadLogTail(size, retr, lastPos);
      if t.content.Some? && t.content.value != "" {
        filePositions := filePositions[path := t.position];
        var lines := Split(t.content.value, '\n');
        var _ := ProcessLines(lines, decode, policy, now, trim);
      }
    }

    /** One pass of `monitor_server` that is not an interrupt: a failed connection
        changes nothing; otherwise the log is polled, and after a poll whose `quit`
        succeeded the schedule's boards are sent and, when it says so, the stats saved.
        The schedule sees the clock, whether anyone is tracked, and whether changes are
        unsaved, all as the poll left them. */
    method RunPass(pass: Pass, sched: Schedule.Sched, path: string, decode: string -> Pipeline.Line, policy: string,
                   trim: set<string> -> set<string>, interval: nat) returns (o: Schedule.Outcome)
      requires Valid() && !pass.Interrupted?
      modifies this
      ensures Valid()
      ensures o.Errored? <==> pass.Failed? || pass.QuitFailed?
      ensures pass.Failed? ==> unchanged(this)
      ensures pass.QuitFailed? ==>
        var q := PollLog(old(Model()), old(lastEvents), old(filePositions), path, pass.size, pass.retr, decode, policy, pass.now, trim);
        Model() == q.state && lastEvents == q.seen && filePositions == q.positions && disk == old(disk)
      ensures pass.Connected? ==>
        var q := PollLog(old(Model()), old(lastEvents), old(filePositions), path, pass.size, pass.retr, decode, policy, pass.now, trim);
        var due := Schedule.Step(sched, o, interval);
        && o == Schedule.Polled(pass.clock, q.state.store.players != map[], q.state.unsaved)
        && Store() == q.state.store && lastEvents == q.seen && filePositions == q.positions
        && outbox == q.state.outbox + BoardMessages(q.state.store, due.boards)
        && (due.save && pass.write.Written? ==> disk == Readable(Snapshot(Store(), filePositions)) && !unsavedChanges)
        && (due.save && pass.write.DumpFailed? ==> disk == Unreadable && unsavedChanges == q.state.unsaved)
        && (!due.save || pass.write.OpenFailed? ==> disk == old(disk) && unsavedChanges == q.state.unsaved)
      ensures old(outbox) <= outbox
      ensures var r := PassStep(old(Vars()), pass, sched, path, decode, policy, trim, interval);
        Vars() == r.globals && o == r.outcome
    {
      match pass {
        case Failed =>
          o := Schedule.Errored;
        case QuitFailed(size, retr, now) =>
          MonitorEventsLog(path, size, retr, decode, policy, now, trim);
          o := Schedule.Errored;
        case Connected(size, retr, clock, now, w) =>
          MonitorEventsLog(path, size, retr, decode, policy, now, trim);
          o := Schedule.Polled(clock, players != map[], unsavedChanges);
          var due := Schedule.Step(sched, o, interval);
          SendBoards(due.boards);
          if due.save {
            SaveStats(w);
          }
      }
    }

    /** One pass and the schedule's decision after it, as the loop sees them: the fold
        over the passes still to come is the fold over this one and them. */
    method Tick(pass: Pass, sched: Schedule.Sched, path: string, decode: string -> Pipeline.Line, policy: string,
                trim: set<string> -> set<string>, interval: nat, ghost rest: seq<Pass>) returns (o: Schedule.Outcome, plan: Schedule.Plan)
      requires Valid() && !pass.Interrupted? && sched.consecutiveErrors < Schedule.MaxErrors
      modifies this
      ensures Valid()
      ensures (o.Errored? <==> pass.Failed? || pass.QuitFailed?) && (o.Polled? ==> pass.Connected? && o.clock == pass.clock)
      ensures plan == Schedule.Step(sched, o, interval) && plan.next.consecutiveErrors < Schedule.MaxErrors
      ensures old(outbox) <= outbox
      ensures Serving(Vars(), plan.next, rest, path, decode, policy, trim, interval)
        == Serving(old(Vars()), sched, [pass] + rest, path, decode, policy, trim, interval)
    {
      o := RunPass(pass, sched, path, decode, policy, trim, interval);
      assert ([pass] + rest)[0] == pass && ([pass] + rest)[1..] == rest;
      plan := Schedule.Step(sched, o, interval);
      Schedule.ErrorsStayBelowMax(sched, o, interval);
    }

    /** The interrupt: `if unsaved_changes: save_player_stats()`. */
    method Stop(w: Write)
      modifies this
      ensures old(unsavedChanges) && w.Written? ==> disk == Readable(Snapshot(Store(), filePositions)) && !unsavedChanges
      ensures old(unsavedChanges) && w.DumpFailed? ==> disk == Unreadable && unsavedChanges
      ensures !old(unsavedChanges) || w.OpenFailed? ==> disk == old(disk) && unsavedChanges == old(unsavedChanges)
      ensures order == old(order) && players == old(players) && filePositions == old(filePositions)
      ensures lastEvents == old(lastEvents) && outbox == old(outbox)
      ensures Vars() == Interrupt(old(Vars()), w)
    {
      if unsavedChanges {
        SaveStats(w);
      }
    }

    /** `monitor_server`'s loop over the given passes, from a fresh schedule, until
        they run out or an interrupt arrives (which saves unsaved changes and stops).
        After a poll the schedule decides which boards to send and whether to save;
        after an error it decides how long to back off. The sleeps are returned, and
        `dirty` is whether changes were unsaved when the interrupt arrived. The
        variables and the stats file end as `Serving` says. */
    method Serve(passes: seq<Pass>, path: string, decode: string -> Pipeline.Line, policy: string,
                 trim: set<string> -> set<string>, interval: nat)
      returns (sched: Schedule.Sched, ghost outcomes: seq<Schedule.Outcome>, sleeps: seq<nat>, ghost dirty: bool)
      requires Valid()
      modifies this
      ensures Valid()
      ensures sched == Schedule.Run(Schedule.Initial(), outcomes, interval)
      ensures sched.consecutiveErrors < Schedule.MaxErrors
      ensures |outcomes| <= |passes| && |sleeps| == |outcomes|
      ensures forall k :: 0 <= k < |outcomes| ==>
        (outcomes[k].Errored? <==> passes[k].Failed? || passes[k].QuitFailed?) && (outcomes[k].Polled? ==> passes[k].Connected? && outcomes[k].clock == passes[k].clock)
      ensures forall k :: 0 <= k < |outcomes| ==>
        sleeps[k] == Schedule.Step(Schedule.Run(Schedule.Initial(), outcomes[..k], interval), outcomes[k], interval).sleep
      ensures |outcomes| < |passes| ==> passes[|outcomes|].Interrupted?
      ensures |outcomes| < |passes| && dirty && passes[|outcomes|].write.Written? ==>
        disk == Readable(Snapshot(Store(), filePositions)) && !unsavedChanges
      ensures |outcomes| < |passes| && dirty && passes[|outcomes|].write.DumpFailed? ==> disk == Unreadable && unsavedChanges
      ensures |outcomes| < |passes| && (!dirty || passes[|outcomes|].write.OpenFailed?) ==> unsavedChanges == dirty
      ensures old(outbox) <= outbox
      ensures var r := Serving(old(Vars()), Schedule.Initial(), passes, path, decode, policy, trim, interval);
        Vars() == r.globals && sched == r.sched && dirty == r.dirty
    {
      ghost var goal := Serving(Vars(), Schedule.Initial(), passes, path, decode, policy, trim, interval);
      sched := Schedule.Initial();
      outcomes := [];
      sleeps := [];
      dirty := false;
      var i := 0;
      while i < |passes|
        invariant 0 <= i <= |passes| && |outcomes| == i
        invariant Valid()
        invariant sched == Schedule.Run(Schedule.Initial(), outcomes, interval)
        invariant sched.consecutiveErrors < Schedule.MaxErrors
        invariant Logged(passes, outcomes, sleeps, interval)
        invariant old(outbox) <= outbox
        invariant Serving(Vars(), sched, passes[i..], path, decode, policy, trim, interval) == goal
      {
        if passes[i].Interrupted? {
          dirty := unsavedChanges;
          Stop(passes[i].write);
          return;
        }
        assert passes[i..] == [passes[i]] + passes[i + 1..];
        var o, plan := Tick(passes[i], sched, path, decode, policy, trim, interval, passes[i + 1..]);
        LoggedSnoc(passes, outcomes, sleeps, o, plan, interval);
        sched := plan.next;
        outcomes := outcomes + [o];
        sleeps := sleeps + [plan.sleep];
        i := i + 1;
      }
    }
  }
}
