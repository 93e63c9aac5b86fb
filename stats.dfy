/**
 * The player statistics store and the four event handlers that update it:
 * `init_player`, `handle_death_event`, `handle_spawn_event`,
 * `handle_level_up_event` and `handle_login_event`.
 *
 * The store is Python's insertion-ordered dict from username to record, kept as
 * the order in which usernames were first seen plus a map. Each handler is a
 * function from the tracker's state (store, unsaved flag, messages sent so far)
 * to its new state and whether it raised; the tracker class runs the same
 * updates in place.
 */
module Stats {
  import opened Util
  import opened Text
  import opened Render
  import Skills

  datatype Location = Location(x: int, y: int, z: int)

  datatype Character = Character(
    alive: bool,
    spawnTime: Option<string>,
    hoursSurvived: real,
    lastLocation: Location,
    skills: map<string, int>)

  datatype Lifetime = Lifetime(
    totalHoursSurvived: real,
    longestSurvival: real,
    skillMilestones: map<string, int>)

  datatype PlayerRecord = PlayerRecord(
    steamId: string,
    totalDeaths: nat,
    totalRespawns: nat,
    current: Character,
    lifetime: Lifetime)

  /** `player_stats`: usernames in insertion order, and their records. */
  datatype Store = Store(order: seq<string>, players: map<string, PlayerRecord>)

  ghost predicate Valid(s: Store)
  {
    && (forall i, j :: 0 <= i < j < |s.order| ==> s.order[i] != s.order[j])
    && (forall u :: u in s.players <==> u in s.order)
  }

  function Empty(): (s: Store)
    ensures Valid(s)
  {
    Store([], map[])
  }

  /** The module-level state the handlers touch: the store, `unsaved_changes`, and
      the messages handed to the chat webhook so far. */
  datatype State = State(store: Store, unsaved: bool, outbox: seq<Embed>)

  /** A handler's new state, and whether it raised part-way (the state then holds
      the updates made before the raise). */
  datatype Handled = Handled(state: State, raised: bool)

  // ---------------------------------------------------------------- init_player

  /** The record `init_player` creates: every counter zero, not alive, no skills. */
  function NewRecord(steamId: string): PlayerRecord
  {
    PlayerRecord(steamId, 0, 0,
      Character(false, None, 0.0, Location(0, 0, 0), map[]),
      Lifetime(0.0, 0.0, map[]))
  }

  predicate IsFresh(p: PlayerRecord, steamId: string)
  {
    && p.steamId == steamId && p.totalDeaths == 0 && p.totalRespawns == 0
    && !p.current.alive && p.current.spawnTime.None? && p.current.hoursSurvived == 0.0
    && p.current.lastLocation == Location(0, 0, 0) && p.current.skills == map[]
    && p.lifetime.totalHoursSurvived == 0.0 && p.lifetime.longestSurvival == 0.0
    && p.lifetime.skillMilestones == map[]
  }

  function InitPlayer(s: Store, username: string, steamId: string): (r: Store)
    requires Valid(s)
    ensures Valid(r) && username in r.players
  {
    if username in s.players then s
    else Store(s.order + [username], s.players[username := NewRecord(steamId)])
  }

  /** `init_player` adds a fresh record at the end of the insertion order when the
      username is new, and otherwise changes nothing; no other record changes. */
  lemma InitPlayerEffect(s: Store, username: string, steamId: string)
    requires Valid(s)
    ensures var r := InitPlayer(s, username, steamId);
      && (forall v :: v in s.players ==> v in r.players && r.players[v] == s.players[v])
      && (forall v :: v in r.players ==> v in s.players || v == username)
      && (username in s.players ==> r == s)
      && (username !in s.players ==> r.order == s.order + [username] && IsFresh(r.players[username], steamId))
  {
  }

  /** Calling `init_player` twice is calling it once. */
  lemma InitPlayerIdempotent(s: Store, username: string, a: string, b: string)
    requires Valid(s)
    ensures InitPlayer(InitPlayer(s, username, a), username, b) == InitPlayer(s, username, a)
  {
  }

  /** The record a handler starts from: the existing one, or a fresh one. */
  function Before(s: Store, username: string, steamId: string): PlayerRecord
    requires Valid(s)
  {
    InitPlayer(s, username, steamId).players[username]
  }

  function Update(s: Store, username: string, p: PlayerRecord): (r: Store)
    requires Valid(s) && username in s.players
    ensures Valid(r)
  {
    Store(s.order, s.players[username := p])
  }

  /** Only `username`'s record can differ, and only by being added or replaced. */
  ghost predicate OthersUnchanged(s: Store, r: Store, username: string)
  {
    && (forall v :: v in s.players ==> v in r.players)
    && (forall v :: v in r.players && v != username ==> v in s.players && r.players[v] == s.players[v])
    && (username !in s.players ==> r.order == s.order + [username])
    && (username in s.players ==> r.order == s.order)
  }

  // ---------------------------------------------------------------- messages

  function LocationText(loc: Location): string
  {
    "(" + IntToString(loc.x) + ", " + IntToString(loc.y) + ", " + IntToString(loc.z) + ")"
  }

  /** `send_death_notification`, built from the record after the death was counted. */
  function DeathNotice(username: string, p: PlayerRecord, hours: real, loc: Location, skills: Skills.SkillList): Embed
  {
    var n := p.totalDeaths;
    var peak := Skills.PeakSkillsText(skills);
    Embed(DeathEmoji(n) + " " + username + " has died for the " + DeathOrdinal(n) + " time!",
          ["\U{23F1}\U{FE0F} **Survived:** " + FormatTime(hours),
           "\U{1F4CD} **Location:** " + LocationText(loc)]
          + (if peak != "" then ["\U{1F3AF} **Peak Skills:** " + peak] else [])
          + ["",
             "**Total Deaths:** " + IntToString(n),
             "**Longest Survival:** " + FormatTime(p.lifetime.longestSurvival)],
          DeathColor(n))
  }

  /** `send_respawn_notification`; the average is shown only once there is a death. */
  function RespawnNotice(username: string, p: PlayerRecord): Embed
  {
    var n := p.totalDeaths;
    Embed("\U{1F504} " + username + " is back in the game!",
          ["\U{1F480} **Death Count:** " + IntToString(n)]
          + (if n > 0 then ["\U{1F4CA} **Average Survival:** " + FormatTime(p.lifetime.totalHoursSurvived / n as real)] else [])
          + ["\U{1F3AE} **Character #" + IntToString(p.totalRespawns) + "**"],
          0x00FF00)
  }

  /** The respawn message shows the death count, then the average survival only when
      there has been a death (the division is guarded), then the character number. */
  lemma RespawnNoticeLines(username: string, p: PlayerRecord)
    ensures var lines := RespawnNotice(username, p).lines;
      && |lines| == (if p.totalDeaths > 0 then 3 else 2)
      && lines[0] == "\U{1F480} **Death Count:** " + IntToString(p.totalDeaths)
      && lines[|lines| - 1] == "\U{1F3AE} **Character #" + IntToString(p.totalRespawns) + "**"
      && (p.totalDeaths > 0 ==>
            lines[1] == "\U{1F4CA} **Average Survival:** " + FormatTime(p.lifetime.totalHoursSurvived / p.totalDeaths as real))
  {
  }

  function SkillNotice(username: string, skill: string, level: int, hours: real): Embed
  {
    Embed("\U{1F389} " + username + " leveled up!",
          ["**" + skill + "** reached level **" + IntToString(level) + "**",
           "\U{23F1}\U{FE0F} After " + FormatTime(hours) + " survived"],
          0xFFD700)
  }

  // ---------------------------------------------------------------- handlers

  /** The `data` of a `death` event. */
  datatype DeathReport = DeathReport(username: string, steamId: string, hours: real, location: Location, skills: string)

  /** What `handle_death_event` records before it parses the skill summary. */
  function DeathMarked(p: PlayerRecord, e: DeathReport): PlayerRecord
  {
    p.(totalDeaths := p.totalDeaths + 1,
       current := p.current.(alive := false, hoursSurvived := e.hours, lastLocation := e.location))
  }

  /** What it records once the summary has parsed to `al`. */
  function DeathRecorded(p: PlayerRecord, e: DeathReport, al: Skills.SkillList): PlayerRecord
  {
    var life := p.lifetime;
    p.(current := p.current.(skills := Skills.AsMap(al)),
       lifetime := life.(totalHoursSurvived := life.totalHoursSurvived + e.hours,
                         longestSurvival := if e.hours > life.longestSurvival then e.hours else life.longestSurvival))
  }

  /** `handle_death_event`. The death, the hours and the location are recorded before
      the skill summary is parsed, so a bad summary raises after those updates. */
  function Death(st: State, e: DeathReport): (r: Handled)
    requires Valid(st.store)
    ensures Valid(r.state.store)
  {
    var s := InitPlayer(st.store, e.username, e.steamId);
    var marked := DeathMarked(s.players[e.username], e);
    match Skills.ParseSkills(e.skills)
    case Failure(_) => Handled(State(Update(s, e.username, marked), st.unsaved, st.outbox), true)
    case Success(al) =>
      var updated := DeathRecorded(marked, e, al);
      Handled(State(Update(s, e.username, updated), true,
                    st.outbox + [DeathNotice(e.username, updated, e.hours, e.location, al)]), false)
  }

  /** `Death` step by step: the record marked dead, then either the raise or the
      recorded skills and lifetime numbers with their message. */
  lemma DeathSteps(st: State, e: DeathReport, s: Store, marked: PlayerRecord)
    requires Valid(st.store)
    requires s == InitPlayer(st.store, e.username, e.steamId)
    requires marked == DeathMarked(s.players[e.username], e)
    ensures Skills.ParseSkills(e.skills).Failure? ==>
      Death(st, e) == Handled(State(Update(s, e.username, marked), st.unsaved, st.outbox), true)
    ensures Skills.ParseSkills(e.skills).Success? ==>
      var al := Skills.ParseSkills(e.skills).value;
      var updated := DeathRecorded(marked, e, al);
      Death(st, e) == Handled(State(Update(s, e.username, updated), true,
                                    st.outbox + [DeathNotice(e.username, updated, e.hours, e.location, al)]), false)
  {
  }

  /** The `data` of a `character_created` event. */
  datatype SpawnReport = SpawnReport(username: string, steamId: string, location: Location)

  /** `handle_spawn_event`; `now` is the wall-clock time recorded as the spawn time. */
  function Spawn(st: State, e: SpawnReport, now: string): (r: Handled)
    requires Valid(st.store)
    ensures Valid(r.state.store)
  {
    var s := InitPlayer(st.store, e.username, e.steamId);
    var p := s.players[e.username];
    var updated := p.(totalRespawns := p.totalRespawns + 1,
                      current := Character(true, Some(now), 0.0, e.location, map[]));
    Handled(State(Update(s, e.username, updated), true, st.outbox + [RespawnNotice(e.username, updated)]), false)
  }

  /** The `data` of a `level_up` event. */
  datatype LevelUpReport = LevelUpReport(username: string, steamId: string, skill: string, level: int, hours: real)

  /** The levels the "milestones" policy announces. */
  const SkillMilestones: set<int> := {5, 10}

  /** `SKILL_NOTIFICATIONS`: "all" announces every level, "milestones" only 5 and 10,
      anything else none. */
  predicate ShouldNotify(policy: string, level: int)
  {
    policy == "all" || (policy == "milestones" && level in SkillMilestones)
  }

  /** `handle_level_up_event`. */
  function LevelUp(st: State, e: LevelUpReport, policy: string): (r: Handled)
    requires Valid(st.store)
    ensures Valid(r.state.store)
  {
    var s := InitPlayer(st.store, e.username, e.steamId);
    var updated := Leveled(s.players[e.username], e);
    Handled(State(Update(s, e.username, updated), true, st.outbox + SkillNotices(e, policy)), false)
  }

  /** The record after a level-up: the skill's current level and the hours set, and
      the skill's milestone raised when the new level beats it. */
  function Leveled(p: PlayerRecord, e: LevelUpReport): PlayerRecord
  {
    var life := p.lifetime;
    var milestones := life.skillMilestones;
    p.(current := p.current.(skills := p.current.skills[e.skill := e.level], hoursSurvived := e.hours),
       lifetime := if e.level > Get(milestones, e.skill, 0) then life.(skillMilestones := milestones[e.skill := e.level]) else life)
  }

  /** The message a level-up sends under `policy`, if any. */
  function SkillNotices(e: LevelUpReport, policy: string): seq<Embed>
  {
    if ShouldNotify(policy, e.level) then [SkillNotice(e.username, e.skill, e.level, e.hours)] else []
  }

  /** `LevelUp` in terms of the record `init_player` leaves. */
  lemma LevelUpSteps(st: State, e: LevelUpReport, policy: string, s: Store)
    requires Valid(st.store)
    requires s == InitPlayer(st.store, e.username, e.steamId)
    ensures LevelUp(st, e, policy)
      == Handled(State(Update(s, e.username, Leveled(s.players[e.username], e)), true, st.outbox + SkillNotices(e, policy)), false)
  {
  }

  /** The `data` of a `login` event. */
  datatype LoginReport = LoginReport(username: string, steamId: string, hours: real, skills: string)

  /** `handle_login_event`: the skill summary is parsed first, so a bad one raises
      with only `init_player`'s effect. Sends nothing. */
  function Login(st: State, e: LoginReport): (r: Handled)
    requires Valid(st.store)
    ensures Valid(r.state.store)
  {
    var s := InitPlayer(st.store, e.username, e.steamId);
    match Skills.ParseSkills(e.skills)
    case Failure(_) => Handled(State(s, st.unsaved, st.outbox), true)
    case Success(al) =>
      var p := s.players[e.username];
      var updated := p.(current := p.current.(skills := Skills.AsMap(al), alive := true, hoursSurvived := e.hours));
      Handled(State(Update(s, e.username, updated), true, st.outbox), false)
  }

  // ---------------------------------------------------------------- what each handler changes

  /** A death adds exactly one to the death count, marks the character dead and
      records the hours and the location; when the skill summary parses it also
      records the skills, adds the hours to the lifetime total, raises the longest
      survival to at least these hours, and sends one message whose ordinal, emoji
      and colour follow the new death count. Respawns, milestones, the Steam id and
      every other player are untouched; a bad summary raises and leaves the
      lifetime numbers, the skills, the flag and the messages as they were. */
  lemma DeathEffect(st: State, e: DeathReport)
    requires Valid(st.store)
    ensures var r := Death(st, e);
      var p := Before(st.store, e.username, e.steamId);
      var q := r.state.store.players[e.username];
      && OthersUnchanged(st.store, r.state.store, e.username)
      && q.totalDeaths == p.totalDeaths + 1
      && q.totalRespawns == p.totalRespawns && q.steamId == p.steamId
      && !q.current.alive && q.current.spawnTime == p.current.spawnTime
      && q.current.hoursSurvived == e.hours && q.current.lastLocation == e.location
      && q.lifetime.skillMilestones == p.lifetime.skillMilestones
      && (r.raised <==> Skills.ParseSkills(e.skills).Failure?)
      && (r.raised ==>
            && q.lifetime == p.lifetime && q.current.skills == p.current.skills
            && r.state.unsaved == st.unsaved && r.state.outbox == st.outbox)
      && (!r.raised ==>
            && q.current.skills == Skills.AsMap(Skills.ParseSkills(e.skills).value)
            && q.lifetime.totalHoursSurvived == p.lifetime.totalHoursSurvived + e.hours
            && q.lifetime.longestSurvival >= p.lifetime.longestSurvival
            && q.lifetime.longestSurvival >= e.hours
            && (q.lifetime.longestSurvival == p.lifetime.longestSurvival || q.lifetime.longestSurvival == e.hours)
            && r.state.unsaved
            && |r.state.outbox| == |st.outbox| + 1 && r.state.outbox[..|st.outbox|] == st.outbox
            && var m := r.state.outbox[|st.outbox|];
               && m.title == DeathEmoji(q.totalDeaths) + " " + e.username + " has died for the " + DeathOrdinal(q.totalDeaths) + " time!"
               && m.color == DeathColor(q.totalDeaths))
  {
    var s := InitPlayer(st.store, e.username, e.steamId);
    DeathSteps(st, e, s, DeathMarked(s.players[e.username], e));
  }

  /** A spawn adds exactly one to the respawn count and replaces the character with a
      live one at the spawn point with no hours and no skills; deaths, lifetime
      numbers and every other player are untouched, and one message goes out. */
  lemma SpawnEffect(st: State, e: SpawnReport, now: string)
    requires Valid(st.store)
    ensures var r := Spawn(st, e, now);
      var p := Before(st.store, e.username, e.steamId);
      var q := r.state.store.players[e.username];
      && !r.raised
      && OthersUnchanged(st.store, r.state.store, e.username)
      && q.totalRespawns == p.totalRespawns + 1
      && q.totalDeaths == p.totalDeaths && q.lifetime == p.lifetime && q.steamId == p.steamId
      && q.current.alive && q.current.spawnTime == Some(now) && q.current.hoursSurvived == 0.0
      && q.current.lastLocation == e.location && q.current.skills == map[]
      && r.state.unsaved
      && r.state.outbox == st.outbox + [RespawnNotice(e.username, q)]
  {
  }

  /** A level-up records the level as the current one for that skill, records the
      hours, and raises the skill's lifetime milestone to at least the level; no
      other skill, counter or player changes. A message goes out exactly when the
      policy is "all", or "milestones" and the level is 5 or 10. */
  lemma LevelUpEffect(st: State, e: LevelUpReport, policy: string)
    requires Valid(st.store)
    ensures var r := LevelUp(st, e, policy);
      var p := Before(st.store, e.username, e.steamId);
      var q := r.state.store.players[e.username];
      && !r.raised
      && OthersUnchanged(st.store, r.state.store, e.username)
      && q.totalDeaths == p.totalDeaths && q.totalRespawns == p.totalRespawns && q.steamId == p.steamId
      && q.current.alive == p.current.alive && q.current.lastLocation == p.current.lastLocation
      && q.current.spawnTime == p.current.spawnTime
      && q.current.hoursSurvived == e.hours
      && q.current.skills == p.current.skills[e.skill := e.level]
      && Get(q.lifetime.skillMilestones, e.skill, 0) == Max(Get(p.lifetime.skillMilestones, e.skill, 0), e.level)
      && (forall k :: k != e.skill ==> Get(q.lifetime.skillMilestones, k, 0) == Get(p.lifetime.skillMilestones, k, 0))
      && q.lifetime.totalHoursSurvived == p.lifetime.totalHoursSurvived
      && q.lifetime.longestSurvival == p.lifetime.longestSurvival
      && r.state.unsaved
      && (ShouldNotify(policy, e.level) <==> |r.state.outbox| == |st.outbox| + 1)
      && (!ShouldNotify(policy, e.level) ==> r.state.outbox == st.outbox)
      && (ShouldNotify(policy, e.level) ==>
            r.state.outbox == st.outbox + [SkillNotice(e.username, e.skill, e.level, e.hours)])
  {
  }

  /** A login marks the character alive and records its hours and skills, sending
      nothing; a bad summary raises after only `init_player`. */
  lemma LoginEffect(st: State, e: LoginReport)
    requires Valid(st.store)
    ensures var r := Login(st, e);
      var p := Before(st.store, e.username, e.steamId);
      var q := r.state.store.players[e.username];
      && OthersUnchanged(st.store, r.state.store, e.username)
      && r.state.outbox == st.outbox
      && q.totalDeaths == p.totalDeaths && q.totalRespawns == p.totalRespawns && q.lifetime == p.lifetime
      && q.steamId == p.steamId && q.current.spawnTime == p.current.spawnTime
      && (r.raised <==> Skills.ParseSkills(e.skills).Failure?)
      && (r.raised ==> q == p && r.state.unsaved == st.unsaved)
      && (!r.raised ==>
            && q.current.alive && q.current.hoursSurvived == e.hours
            && q.current.skills == Skills.AsMap(Skills.ParseSkills(e.skills).value)
            && q.current.lastLocation == p.current.lastLocation
            && r.state.unsaved)
  {
  }
}
