/**
 * The per-line loop of `monitor_discord_events_log`: split the new text on
 * newlines, skip blank lines and lines that are not JSON, key each event by its
 * id, dispatch only ids not seen before, and keep the id set bounded.
 *
 * JSON decoding is the parameter `decode`, applied to the stripped line. Which
 * 1000 ids `set(list(ids)[-1000:])` keeps depends on Python's set iteration order,
 * so the choice is the parameter `trim`.
 */
module Pipeline {
  import opened Util
  import opened Text
  import Stats
  import Events

  /** What `json.loads` makes of a line: an event, or a `JSONDecodeError`. */
  datatype Line = Malformed | Decoded(event: Events.Event)

  const MaxRemembered: nat := 1000

  /** A trimming choice as `set(list(ids)[-1000:])` makes it: 1000 of the ids. */
  ghost predicate Trims(trim: set<string> -> set<string>)
  {
    forall s: set<string> :: |s| > MaxRemembered ==> trim(s) <= s && |trim(s)| == MaxRemembered
  }

  /** The state after a batch, the ids remembered, and whether a handler raised
      (which ends the batch: the exception leaves the loop). */
  datatype Scan = Scan(state: Stats.State, seen: set<string>, raised: bool)

  /** `if not line.strip(): continue`. */
  predicate Blank(line: string)
  {
    Strip(line) == ""
  }

  /** One pass of the loop body: skip a blank line, a line `json.loads` rejects
      and an id already remembered; otherwise remember the id, dispatch the event,
      and trim the set back to 1000 ids when it has grown past that. A handler that
      raises leaves the id added and the set untrimmed. */
  function ScanLine(st: Stats.State, seen: set<string>, line: string, decode: string -> Line,
                    policy: string, now: string, trim: set<string> -> set<string>): (r: Scan)
    requires Stats.Valid(st.store)
    ensures Stats.Valid(r.state.store)
  {
    if Blank(line) then Scan(st, seen, false)
    else match decode(Strip(line))
      case Malformed => Scan(st, seen, false)
      case Decoded(ev) =>
        var id := Events.EventId(ev);
        if id in seen then Scan(st, seen, false)
        else
          var h := Events.Route(st, ev.payload, policy, now);
          Scan(h.state, Remember(seen, id, h.raised, trim), h.raised)
  }

  /** The id set after a new id was dispatched: the id is added before the handler
      runs; the trim back to 1000 ids comes after it, so a raise skips it. */
  function Remember(seen: set<string>, id: string, raised: bool, trim: set<string> -> set<string>): set<string>
  {
    var added := seen + {id};
    if raised || |added| <= MaxRemembered then added else trim(added)
  }

  /** The loop over `lines`, with the module-level id set; a raise ends it. */
  function ScanLines(st: Stats.State, seen: set<string>, lines: seq<string>, decode: string -> Line,
                     policy: string, now: string, trim: set<string> -> set<string>): (r: Scan)
    requires Stats.Valid(st.store)
    ensures Stats.Valid(r.state.store)
    decreases |lines|
  {
    if lines == [] then Scan(st, seen, false)
    else
      var r := ScanLine(st, seen, lines[0], decode, policy, now, trim);
      if r.raised then r else ScanLines(r.state, r.seen, lines[1..], decode, policy, now, trim)
  }

  // ---------------------------------------------------------------- properties

  /** Remembering one more id: a new id is kept while the set had room; a handler
      that returned leaves at most 1000 ids; one that raised leaves the id added and
      nothing trimmed, so the set grows by that id. */
  lemma RememberBound(seen: set<string>, id: string, raised: bool, trim: set<string> -> set<string>)
    requires Trims(trim)
    ensures |seen| < MaxRemembered ==> id in Remember(seen, id, raised, trim)
    ensures !raised ==> |Remember(seen, id, raised, trim)| <= MaxRemembered
    ensures raised ==> Remember(seen, id, raised, trim) == seen + {id}
    ensures |Remember(seen, id, raised, trim)| <= Max(|seen|, MaxRemembered) + (if raised then 1 else 0)
  {
  }

  lemma ScanLineBounded(st: Stats.State, seen: set<string>, line: string, decode: string -> Line,
                        policy: string, now: string, trim: set<string> -> set<string>)
    requires Stats.Valid(st.store) && Trims(trim)
    ensures var r := ScanLine(st, seen, line, decode, policy, now, trim);
      |r.seen| <= Max(|seen|, MaxRemembered) + (if r.raised then 1 else 0)
  {
    if !Blank(line) {
      match decode(Strip(line))
      case Malformed =>
      case Decoded(ev) =>
        var id := Events.EventId(ev);
        if id !in seen {
          var h := Events.Route(st, ev.payload, policy, now);
          assert ScanLine(st, seen, line, decode, policy, now, trim) == Scan(h.state, Remember(seen, id, h.raised, trim), h.raised);
          RememberBound(seen, id, h.raised, trim);
        }
    }
  }

  /** A batch never leaves more ids than it found or 1000, whichever is more, plus one
      when a handler broke it off: the id is added before the handler runs and the
      trim comes after it. So a batch that runs to the end brings an overfull set
      back to 1000 or keeps it as it was, while each batch broken off by a raise can
      leave one id more than the last. */
  lemma {:induction false} ScanBounded(st: Stats.State, seen: set<string>, lines: seq<string>, decode: string -> Line,
                                       policy: string, now: string, trim: set<string> -> set<string>)
    requires Stats.Valid(st.store) && Trims(trim)
    ensures var r := ScanLines(st, seen, lines, decode, policy, now, trim);
      |r.seen| <= Max(|seen|, MaxRemembered) + (if r.raised then 1 else 0)
    decreases |lines|
  {
    if lines != [] {
      var r := ScanLine(st, seen, lines[0], decode, policy, now, trim);
      ScanLineBounded(st, seen, lines[0], decode, policy, now, trim);
      if !r.raised {
        ScanBounded(r.state, r.seen, lines[1..], decode, policy, now, trim);
      }
    }
  }

  /** A line whose id is already remembered is skipped, as are blank and malformed lines. */
  lemma SkippedLines(st: Stats.State, seen: set<string>, line: string, rest: seq<string>, decode: string -> Line,
                     policy: string, now: string, trim: set<string> -> set<string>)
    requires Stats.Valid(st.store)
    requires Blank(line) || decode(Strip(line)).Malformed? || Events.EventId(decode(Strip(line)).event) in seen
    ensures ScanLines(st, seen, [line] + rest, decode, policy, now, trim) == ScanLines(st, seen, rest, decode, policy, now, trim)
  {
    assert ([line] + rest)[0] == line && ([line] + rest)[1..] == rest;
    assert ScanLine(st, seen, line, decode, policy, now, trim) == Scan(st, seen, false);
  }

  /** Of two non-blank lines with the same id in one batch, only the first is
      dispatched, as long as the set was not full when the first was added. */
  lemma SameIdOnce(st: Stats.State, seen: set<string>, first: string, second: string, decode: string -> Line,
                   policy: string, now: string, trim: set<string> -> set<string>)
    requires Stats.Valid(st.store) && |seen| < MaxRemembered
    requires !Blank(first) && !Blank(second)
    requires decode(Strip(first)).Decoded? && decode(Strip(second)).Decoded?
    requires Events.EventId(decode(Strip(first)).event) == Events.EventId(decode(Strip(second)).event)
    ensures ScanLines(st, seen, [first, second], decode, policy, now, trim) == ScanLines(st, seen, [first], decode, policy, now, trim)
  {
    var id := Events.EventId(decode(Strip(first)).event);
    var r := ScanLine(st, seen, first, decode, policy, now, trim);
    assert [first, second][0] == first && [first, second][1..] == [second];
    assert [first][1..] == [];
    assert id in r.seen by {
      if id !in seen {
        assert |seen + {id}| <= MaxRemembered;
      }
    }
    if !r.raised {
      assert [second][0] == second && [second][1..] == [];
      assert ScanLine(r.state, r.seen, second, decode, policy, now, trim) == Scan(r.state, r.seen, false);
    }
  }

  /** Two players' deaths logged in the same second: the second is never dispatched. */
  lemma SameSecondDeathsDropOne(st: Stats.State, seen: set<string>, first: string, second: string, decode: string -> Line,
                                policy: string, now: string, trim: set<string> -> set<string>,
                                ts: string, a: Stats.DeathReport, b: Stats.DeathReport)
    requires Stats.Valid(st.store) && |seen| < MaxRemembered
    requires !Blank(first) && !Blank(second)
    requires decode(Strip(first)) == Decoded(Events.Event(ts, Events.Death(a)))
    requires decode(Strip(second)) == Decoded(Events.Event(ts, Events.Death(b)))
    ensures ScanLines(st, seen, [first, second], decode, policy, now, trim) == ScanLines(st, seen, [first], decode, policy, now, trim)
  {
    Events.SameSecondDeathsCollide(ts, a, b);
    SameIdOnce(st, seen, first, second, decode, policy, now, trim);
  }

  lemma ScanLineProgresses(st: Stats.State, seen: set<string>, line: string, decode: string -> Line,
                           policy: string, now: string, trim: set<string> -> set<string>)
    requires Stats.Valid(st.store)
    ensures Events.Progressed(st.store, ScanLine(st, seen, line, decode, policy, now, trim).state.store)
  {
    if !Blank(line) && decode(Strip(line)).Decoded? && Events.EventId(decode(Strip(line)).event) !in seen {
      Events.RouteProgresses(st, decode(Strip(line)).event.payload, policy, now);
    } else {
      Events.ProgressedRefl(st.store);
    }
  }

  lemma ScanLineAppends(st: Stats.State, seen: set<string>, line: string, decode: string -> Line,
                         policy: string, now: string, trim: set<string> -> set<string>)
    requires Stats.Valid(st.store)
    ensures st.outbox <= ScanLine(st, seen, line, decode, policy, now, trim).state.outbox
  {
    if !Blank(line) && decode(Strip(line)).Decoded? && Events.EventId(decode(Strip(line)).event) !in seen {
      Events.RouteAppends(st, decode(Strip(line)).event.payload, policy, now);
    }
  }

  /** No batch forgets a player or lowers a counter, a longest survival or a milestone. */
  lemma {:induction false} ScanProgresses(st: Stats.State, seen: set<string>, lines: seq<string>, decode: string -> Line,
                                          policy: string, now: string, trim: set<string> -> set<string>)
    requires Stats.Valid(st.store)
    ensures Events.Progressed(st.store, ScanLines(st, seen, lines, decode, policy, now, trim).state.store)
    decreases |lines|
  {
    if lines == [] {
      Events.ProgressedRefl(st.store);
    } else {
      var r := ScanLine(st, seen, lines[0], decode, policy, now, trim);
      ScanLineProgresses(st, seen, lines[0], decode, policy, now, trim);
      if !r.raised {
        ScanProgresses(r.state, r.seen, lines[1..], decode, policy, now, trim);
        Events.ProgressedTrans(st.store, r.state.store, ScanLines(r.state, r.seen, lines[1..], decode, policy, now, trim).state.store);
      }
    }
  }

  // ---------------------------------------------------------------- as written

  /** The loop as the source has it. The function assigns `last_events` when it
      trims, so Python makes the name local to the whole function; the first
      `event_id not in last_events` then raises `UnboundLocalError`, which is not a
      `JSONDecodeError` and leaves the loop. Nothing is ever dispatched. */
  function AsWrittenScan(st: Stats.State, seen: set<string>, lines: seq<string>, decode: string -> Line): (r: Scan)
    decreases |lines|
  {
    if lines == [] then Scan(st, seen, false)
    else if Decodes(lines[0], decode) then Scan(st, seen, true)
    else AsWrittenScan(st, seen, lines[1..], decode)
  }

  /** `json.loads` accepts the stripped, non-blank line. */
  predicate Decodes(line: string, decode: string -> Line)
  {
    !Blank(line) && decode(Strip(line)).Decoded?
  }

  /** As written, a batch changes neither the store nor the id set, and raises
      exactly when one of its lines decodes. */
  lemma {:induction false} AsWrittenDispatchesNothing(st: Stats.State, seen: set<string>, lines: seq<string>, decode: string -> Line)
    ensures AsWrittenScan(st, seen, lines, decode).state == st
    ensures AsWrittenScan(st, seen, lines, decode).seen == seen
    ensures AsWrittenScan(st, seen, lines, decode).raised <==> exists line :: line in lines && Decodes(line, decode)
    decreases |lines|
  {
    if lines != [] && !Decodes(lines[0], decode) {
      AsWrittenDispatchesNothing(st, seen, lines[1..], decode);
      assert forall line :: line in lines <==> line == lines[0] || line in lines[1..];
    } else if lines != [] {
      assert lines[0] in lines;
    }
  }

  /** A batch of one new event leaves the store as its handler does. */
  lemma ScanOne(st: Stats.State, seen: set<string>, line: string, decode: string -> Line,
                policy: string, now: string, trim: set<string> -> set<string>)
    requires Stats.Valid(st.store) && Decodes(line, decode)
    requires Events.EventId(decode(Strip(line)).event) !in seen
    ensures ScanLines(st, seen, [line], decode, policy, now, trim).state
            == Events.Route(st, decode(Strip(line)).event.payload, policy, now).state
  {
    assert [line][0] == line && [line][1..] == [];
  }

  /** The input that shows the difference: a batch holding one new death. As
      written the death is lost; with the module-level set it is counted once. */
  lemma DeathLostAsWritten(st: Stats.State, seen: set<string>, line: string, decode: string -> Line,
                           policy: string, now: string, trim: set<string> -> set<string>,
                           ts: string, d: Stats.DeathReport)
    requires Stats.Valid(st.store)
    requires !Blank(line) && decode(Strip(line)) == Decoded(Events.Event(ts, Events.Death(d)))
    requires Events.EventId(Events.Event(ts, Events.Death(d))) !in seen
    ensures AsWrittenScan(st, seen, [line], decode).state == st
    ensures AsWrittenScan(st, seen, [line], decode).raised
    ensures var after := ScanLines(st, seen, [line], decode, policy, now, trim).state.store.players;
      d.username in after && after[d.username].totalDeaths == Stats.Before(st.store, d.username, d.steamId).totalDeaths + 1
  {
    assert Decodes(line, decode);
    ScanOne(st, seen, line, decode, policy, now, trim);
    assert Events.Route(st, Events.Death(d), policy, now) == Stats.Death(st, d);
    Stats.DeathEffect(st, d);
  }
}
