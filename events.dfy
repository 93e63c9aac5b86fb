/**
 * The events the game mod writes, one JSON object per line, as already-decoded
 * values, and `handle_discord_event`, which routes each to its handler. A type
 * the router does not know is ignored.
 */
module Events {
  import opened Util
  import opened Text
  import opened Render
  import Stats
  import Leaderboard

  const KnownKinds: set<string> :=
    {"death", "level_up", "character_created", "login", "sunrise", "sunset", "daily_survivors", "leaderboard_request"}

  /** Any other `type` field, including a missing one (`""`). */
  type UnknownKind = k: string | k !in KnownKinds witness ""

  datatype Payload =
    | Death(death: Stats.DeathReport)
    | LevelUp(levelUp: Stats.LevelUpReport)
    | CharacterCreated(spawn: Stats.SpawnReport)
    | Login(login: Stats.LoginReport)
    | Sunrise(gameDay: int, lightLevel: real)
    | Sunset(gameDay: int, lightLevel: real)
    | DailySurvivors(gameDay: int, survivorCount: int, survivors: seq<Leaderboard.Survivor>)
    | LeaderboardRequest(board: string)
    | Other(kind: UnknownKind)

  /** One decoded line of the events log. */
  datatype Event = Event(timestamp: string, payload: Payload)

  /** The `type` field the event carried. */
  function Kind(p: Payload): (k: string)
    ensures p.Other? <==> k !in KnownKinds
  {
    match p
    case Death(_) => "death"
    case LevelUp(_) => "level_up"
    case CharacterCreated(_) => "character_created"
    case Login(_) => "login"
    case Sunrise(_, _) => "sunrise"
    case Sunset(_, _) => "sunset"
    case DailySurvivors(_, _, _) => "daily_survivors"
    case LeaderboardRequest(_) => "leaderboard_request"
    case Other(k) => k
  }

  /** The key the tracker remembers an event by: type and timestamp, and for a
      level-up also the player, the skill and the level. */
  function EventId(e: Event): string
  {
    match e.payload
    case LevelUp(l) => "level_up_" + l.username + "_" + l.skill + "_" + IntToString(l.level) + "_" + e.timestamp
    case _ => Kind(e.payload) + "_" + e.timestamp
  }

  function Send(st: Stats.State, m: Embed): Stats.State
  {
    st.(outbox := st.outbox + [m])
  }

  /** `handle_discord_event`. `policy` is `SKILL_NOTIFICATIONS`; `now` is the clock
      reading a spawn records. */
  function Route(st: Stats.State, p: Payload, policy: string, now: string): (r: Stats.Handled)
    requires Stats.Valid(st.store)
    ensures Stats.Valid(r.state.store)
  {
    match p
    case Death(d) => Stats.Death(st, d)
    case LevelUp(l) => Stats.LevelUp(st, l, policy)
    case CharacterCreated(c) => Stats.Spawn(st, c, now)
    case Login(l) => Stats.Login(st, l)
    case Sunrise(day, light) => Stats.Handled(Send(st, SunriseNotice(day, light)), false)
    case Sunset(day, light) => Stats.Handled(Send(st, SunsetNotice(day, light)), false)
    case DailySurvivors(day, _, survivors) =>
      (match Leaderboard.DailyReport(day, survivors)
       case None => Stats.Handled(st, false)
       case Some(m) => Stats.Handled(Send(st, m), false))
    case LeaderboardRequest(kind) =>
      (match Leaderboard.SendLeaderboard(st.store, kind)
       case NoBoard => Stats.Handled(st, false)
       case Board(m) => Stats.Handled(Send(st, m), false)
       case UnknownBoard => Stats.Handled(st, true))
    case Other(_) => Stats.Handled(st, false)
  }

  /** The router's cases one at a time. */
  lemma RouteDeath(st: Stats.State, d: Stats.DeathReport, policy: string, now: string)
    requires Stats.Valid(st.store)
    ensures Route(st, Death(d), policy, now) == Stats.Death(st, d)
  {
  }

  lemma RouteLevelUp(st: Stats.State, l: Stats.LevelUpReport, policy: string, now: string)
    requires Stats.Valid(st.store)
    ensures Route(st, LevelUp(l), policy, now) == Stats.LevelUp(st, l, policy)
  {
  }

  lemma RouteSpawn(st: Stats.State, c: Stats.SpawnReport, policy: string, now: string)
    requires Stats.Valid(st.store)
    ensures Route(st, CharacterCreated(c), policy, now) == Stats.Spawn(st, c, now)
  {
  }

  lemma RouteLogin(st: Stats.State, l: Stats.LoginReport, policy: string, now: string)
    requires Stats.Valid(st.store)
    ensures Route(st, Login(l), policy, now) == Stats.Login(st, l)
  {
  }

  // ---------------------------------------------------------------- properties

  /** Events of an unknown type change nothing. */
  lemma UnknownIgnored(st: Stats.State, k: UnknownKind, policy: string, now: string)
    requires Stats.Valid(st.store)
    ensures Route(st, Other(k), policy, now) == Stats.Handled(st, false)
  {
  }

  /** Only the four player events touch the store; the others at most send a message. */
  lemma OnlyPlayerEventsChangeStore(st: Stats.State, p: Payload, policy: string, now: string)
    requires Stats.Valid(st.store)
    requires !p.Death? && !p.LevelUp? && !p.CharacterCreated? && !p.Login?
    ensures var r := Route(st, p, policy, now);
      && r.state.store == st.store && r.state.unsaved == st.unsaved
      && st.outbox <= r.state.outbox && |r.state.outbox| <= |st.outbox| + 1
      && (r.raised <==> p.LeaderboardRequest? && Leaderboard.SendLeaderboard(st.store, p.board).UnknownBoard?)
  {
  }

  /** What never goes backwards for a known player: no handler forgets a player or
      lowers the death or respawn count, the longest survival or a skill milestone. */
  ghost predicate Progressed(s: Stats.Store, r: Stats.Store)
  {
    forall u :: u in s.players ==>
      && u in r.players
      && r.players[u].totalDeaths >= s.players[u].totalDeaths
      && r.players[u].totalRespawns >= s.players[u].totalRespawns
      && r.players[u].lifetime.longestSurvival >= s.players[u].lifetime.longestSurvival
      && forall k :: Get(r.players[u].lifetime.skillMilestones, k, 0) >= Get(s.players[u].lifetime.skillMilestones, k, 0)
  }

  lemma ProgressedRefl(s: Stats.Store)
    ensures Progressed(s, s)
  {
  }

  lemma {:induction false} ProgressedTrans(a: Stats.Store, b: Stats.Store, c: Stats.Store)
    requires Progressed(a, b) && Progressed(b, c)
    ensures Progressed(a, c)
  {
    forall u | u in a.players
      ensures forall k :: Get(c.players[u].lifetime.skillMilestones, k, 0) >= Get(a.players[u].lifetime.skillMilestones, k, 0)
    {
      forall k ensures Get(c.players[u].lifetime.skillMilestones, k, 0) >= Get(a.players[u].lifetime.skillMilestones, k, 0) {
        assert Get(c.players[u].lifetime.skillMilestones, k, 0) >= Get(b.players[u].lifetime.skillMilestones, k, 0);
      }
    }
  }

  lemma DeathProgresses(st: Stats.State, d: Stats.DeathReport)
    requires Stats.Valid(st.store)
    ensures Progressed(st.store, Stats.Death(st, d).state.store)
  {
    Stats.DeathEffect(st, d);
  }

  lemma LevelUpProgresses(st: Stats.State, l: Stats.LevelUpReport, policy: string)
    requires Stats.Valid(st.store)
    ensures Progressed(st.store, Stats.LevelUp(st, l, policy).state.store)
  {
    Stats.LevelUpEffect(st, l, policy);
    var r := Stats.LevelUp(st, l, policy).state.store;
    var u := l.username;
    if u in st.store.players {
      var before := st.store.players[u].lifetime.skillMilestones;
      var after := r.players[u].lifetime.skillMilestones;
      assert Stats.Before(st.store, u, l.steamId) == st.store.players[u];
      forall k ensures Get(after, k, 0) >= Get(before, k, 0) {
        if k == l.skill {
          assert Get(after, k, 0) == Max(Get(before, k, 0), l.level);
        }
      }
    }
  }

  lemma SpawnProgresses(st: Stats.State, c: Stats.SpawnReport, now: string)
    requires Stats.Valid(st.store)
    ensures Progressed(st.store, Stats.Spawn(st, c, now).state.store)
  {
    Stats.SpawnEffect(st, c, now);
  }

  lemma LoginProgresses(st: Stats.State, l: Stats.LoginReport)
    requires Stats.Valid(st.store)
    ensures Progressed(st.store, Stats.Login(st, l).state.store)
  {
    Stats.LoginEffect(st, l);
  }

  /** Every event, handled or raising part-way, leaves the store progressed. */
  lemma RouteProgresses(st: Stats.State, p: Payload, policy: string, now: string)
    requires Stats.Valid(st.store)
    ensures Progressed(st.store, Route(st, p, policy, now).state.store)
  {
    match p
    case Death(d) => DeathProgresses(st, d);
    case LevelUp(l) => LevelUpProgresses(st, l, policy);
    case CharacterCreated(c) => SpawnProgresses(st, c, now);
    case Login(l) => LoginProgresses(st, l);
    case _ => OnlyPlayerEventsChangeStore(st, p, policy, now);
  }

  /** Handling an event never takes back a message: at most one is appended. */
  lemma RouteAppends(st: Stats.State, p: Payload, policy: string, now: string)
    requires Stats.Valid(st.store)
    ensures var out := Route(st, p, policy, now).state.outbox;
      st.outbox <= out && |out| <= |st.outbox| + 1
  {
    match p
    case Death(d) => RouteDeath(st, d, policy, now); Stats.DeathEffect(st, d);
    case LevelUp(l) => RouteLevelUp(st, l, policy, now); Stats.LevelUpEffect(st, l, policy);
    case CharacterCreated(c) => RouteSpawn(st, c, policy, now); Stats.SpawnEffect(st, c, now);
    case Login(l) => RouteLogin(st, l, policy, now); Stats.LoginEffect(st, l);
    case _ => OnlyPlayerEventsChangeStore(st, p, policy, now);
  }

  /** Two deaths in the same second share an id whoever died: the coarse key. */
  lemma SameSecondDeathsCollide(ts: string, a: Stats.DeathReport, b: Stats.DeathReport)
    ensures EventId(Event(ts, Death(a))) == EventId(Event(ts, Death(b)))
  {
  }

  /** Level-ups are told apart by level, so one skill's successive levels in the
      same second all count. */
  lemma LevelUpsDistinctByLevel(ts: string, a: Stats.LevelUpReport, b: Stats.LevelUpReport)
    requires a.username == b.username && a.skill == b.skill && a.level != b.level
    ensures EventId(Event(ts, LevelUp(a))) != EventId(Event(ts, LevelUp(b)))
  {
    var pa := "level_up_" + a.username + "_" + a.skill + "_";
    var ta, tb := IntToString(a.level) + ("_" + ts), IntToString(b.level) + ("_" + ts);
    var ia, ib := EventId(Event(ts, LevelUp(a))), EventId(Event(ts, LevelUp(b)));
    assert ia == pa + ta;
    assert ib == pa + tb;
    if ia == ib {
      assert ta == ia[|pa|..];
      assert tb == ib[|pa|..];
      CancelSuffix(IntToString(a.level), IntToString(b.level), "_" + ts);
      IntToStringInjective(a.level, b.level);
    }
  }

  lemma CancelSuffix(x: string, y: string, tail: string)
    requires x + tail == y + tail
    ensures x == y
  {
    assert |x| == |y|;
    assert x == (x + tail)[..|x|];
    assert y == (y + tail)[..|y|];
  }
}
