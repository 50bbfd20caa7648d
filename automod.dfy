/** The stateful part of the auto-moderation engine: class `AdvancedAutoMod`
    of database.py with its per-group, per-user message history and warning
    counters, and the group's violation log. Settings and the banned-word
    document are read from the store by the source; here they are passed
    in, already resolved (see Settings in AutoModRules). The violation log
    lives in the store under "mod_logs" in the source; here it is the field
    `modLogs`, one list per group. */
module AutoMod {
  import opened Common
  import opened AutoModRules
  import Storage

  /** `{guild_id: {user_id: value}}` */
  type PerUser<T> = map<string, map<string, T>>

  /** The value kept for one user of one group, `d` when there is none. */
  function UserValue<T>(m: PerUser<T>, g: string, u: string, d: T): (r: T)
    ensures g in m && u in m[g] ==> r == m[g][u]
    ensures !(g in m && u in m[g]) ==> r == d
  {
    if g in m && u in m[g] then m[g][u] else d
  }

  /** The map after creating the group and user entries as needed and
      storing `v` for that user. */
  function WithUserValue<T>(m: PerUser<T>, g: string, u: string, v: T): PerUser<T>
  {
    m[g := (if g in m then m[g] else map[])[u := v]]
  }

  /** A store touches one user of one group: that user reads back `v`, every
      other (group, user) pair reads as before, and only the one group and
      user gain entries. */
  lemma {:induction false} WithUserValueIsolated<T>(m: PerUser<T>, g: string, u: string, v: T)
    ensures UserValue(WithUserValue(m, g, u, v), g, u, v) == v
    ensures forall g2, u2, d :: (g2 != g || u2 != u) ==>
      UserValue(WithUserValue(m, g, u, v), g2, u2, d) == UserValue(m, g2, u2, d)
    ensures WithUserValue(m, g, u, v).Keys == m.Keys + {g}
    ensures forall g2 :: g2 in m && g2 != g ==> WithUserValue(m, g, u, v)[g2] == m[g2]
  {
  }

  /** A user's message history; no history reads as empty. */
  function History(h: PerUser<seq<HistoryEntry>>, g: string, u: string): seq<HistoryEntry>
  {
    UserValue(h, g, u, [])
  }

  /** A user's auto-moderation warning count; no entry reads as 0. */
  function WarningCount(w: PerUser<int>, g: string, u: string): int
  {
    UserValue(w, g, u, 0)
  }

  /** The counters after `handle_violation` raised one user's count. */
  function Bumped(w: PerUser<int>, g: string, u: string): (r: PerUser<int>)
    ensures r.Keys == w.Keys + {g} && u in r[g]
    ensures forall g2 :: g2 in w && g2 != g ==> r[g2] == w[g2]
    ensures g in w ==> r[g].Keys == w[g].Keys + {u}
  {
    WithUserValue(w, g, u, WarningCount(w, g, u) + 1)
  }

  /** The counters after a reset (the delayed one and the admin command): an
      existing entry becomes 0; an absent one stays absent. */
  function ResetCount(w: PerUser<int>, g: string, u: string): (r: PerUser<int>)
    ensures r.Keys == w.Keys
    ensures forall g2 :: g2 in w ==> r[g2].Keys == w[g2].Keys
  {
    if g in w && u in w[g] then w[g := w[g][u := 0]] else w
  }

  /** One violation raises the count by exactly one and leaves every other
      user's count alone. */
  lemma {:induction false} BumpedByOne(w: PerUser<int>, g: string, u: string)
    ensures WarningCount(Bumped(w, g, u), g, u) == WarningCount(w, g, u) + 1
    ensures forall g2, u2 :: (g2 != g || u2 != u) ==> WarningCount(Bumped(w, g, u), g2, u2) == WarningCount(w, g2, u2)
  {
    WithUserValueIsolated(w, g, u, WarningCount(w, g, u) + 1);
  }

  /** After a reset the user reads 0, nobody else changes and no entry is
      created. */
  lemma {:induction false} ResetCountZero(w: PerUser<int>, g: string, u: string)
    ensures WarningCount(ResetCount(w, g, u), g, u) == 0
    ensures forall g2, u2 :: (g2 != g || u2 != u) ==> WarningCount(ResetCount(w, g, u), g2, u2) == WarningCount(w, g2, u2)
  {
  }

  /** After a reset the next violation is a first offence again: no mute and
      no kick, whatever the count was. */
  lemma {:induction false} ResetRestartsLadder(w: PerUser<int>, g: string, u: string, a: ActionSwitches)
    ensures WarningCount(Bumped(ResetCount(w, g, u), g, u), g, u) == 1
    ensures Timeout(MuteMinutes) !in EscalationActions(WarningCount(Bumped(ResetCount(w, g, u), g, u), g, u), a)
    ensures KickMember !in EscalationActions(WarningCount(Bumped(ResetCount(w, g, u), g, u), g, u), a)
  {
    ResetCountZero(w, g, u);
    BumpedByOne(ResetCount(w, g, u), g, u);
  }

  /** Three violations in a row without a reset reach the mute tier from a
      clean count, and five reach the kick tier. */
  lemma {:induction false} ViolationsReachTiers(w: PerUser<int>, g: string, u: string, a: ActionSwitches)
    requires WarningCount(w, g, u) == 0
    ensures var w3 := Bumped(Bumped(Bumped(w, g, u), g, u), g, u);
      WarningCount(w3, g, u) == 3 &&
      (Timeout(MuteMinutes) in EscalationActions(WarningCount(w3, g, u), a) <==> a.mute) &&
      KickMember !in EscalationActions(WarningCount(w3, g, u), a)
    ensures var w5 := Bumped(Bumped(Bumped(Bumped(Bumped(w, g, u), g, u), g, u), g, u), g, u);
      WarningCount(w5, g, u) == 5 && (KickMember in EscalationActions(WarningCount(w5, g, u), a) <==> a.kick)
  {
    var w1 := Bumped(w, g, u);
    BumpedByOne(w, g, u);
    var w2 := Bumped(w1, g, u);
    BumpedByOne(w1, g, u);
    var w3 := Bumped(w2, g, u);
    BumpedByOne(w2, g, u);
    var w4 := Bumped(w3, g, u);
    BumpedByOne(w3, g, u);
    BumpedByOne(w4, g, u);
  }

  /** A group's violation log; no log reads as empty. */
  function LogOf(logs: map<string, seq<LogEntry>>, g: string): seq<LogEntry>
  {
    Storage.Get(logs, g, [])
  }

  /** `check_message` moderates only messages of ordinary members in groups
      where moderation is on. */
  predicate Moderated(m: Message, s: Settings)
  {
    !Exempt(m) && s.enabled
  }

  /** The history after `check_message`: only the spam check writes it. */
  function HistoryAfter(h: PerUser<seq<HistoryEntry>>, m: Message, s: Settings, now: int): (r: PerUser<seq<HistoryEntry>>)
    ensures !s.antiSpam ==> r == h
    ensures forall g2, u2 :: (g2 != m.guildId || u2 != m.authorId) ==> History(r, g2, u2) == History(h, g2, u2)
    ensures s.antiSpam ==> forall e :: e in History(r, m.guildId, m.authorId) ==> now - e.time < s.spamTime
  {
    if s.antiSpam then
      var window := SpamWindow(History(h, m.guildId, m.authorId), m, s, now);
      WithUserValueIsolated(h, m.guildId, m.authorId, window);
      SpamWindowShape(History(h, m.guildId, m.authorId), m, s, now);
      WithUserValue(h, m.guildId, m.authorId, window)
    else h
  }

  /** The records `check_message` collects from history `h`: the spam check
      judges the pruned window it leaves, and the repeat check reads that
      same window. */
  function Verdicts(h: PerUser<seq<HistoryEntry>>, m: Message, s: Settings, words: seq<string>, now: int): (r: seq<Violation>)
    ensures |r| <= 8
    ensures forall v :: v in r ==> CheckEnabled(s, v)
  {
    var window := History(HistoryAfter(h, m, s, now), m.guildId, m.authorId);
    var spam := if s.antiSpam then SpamVerdict(window, s) else None;
    CollectedFromEnabledChecks(m, s, words, spam, window);
    Collected(m, s, words, spam, window)
  }

  /** Two earlier copies inside the window, followed by a third copy, leave a
      window whose last three texts are equal. */
  lemma {:induction false} WindowRepeats(hist: seq<HistoryEntry>, m: Message, s: Settings, now: int,
                                         earlier: seq<HistoryEntry>, t1: int, t2: int)
    requires s.spamTime > 0
    requires hist == earlier + [HistoryEntry(t1, m.content), HistoryEntry(t2, m.content)]
    requires now - t1 < s.spamTime && now - t2 < s.spamTime
    ensures RepeatViolation(SpamWindow(hist, m, s, now)) == Some(Repeat)
  {
    var e1, e2, e3 := HistoryEntry(t1, m.content), HistoryEntry(t2, m.content), HistoryEntry(now, m.content);
    var copies := [e1, e2, e3];
    assert hist + [e3] == earlier + copies;
    PruneConcat(earlier, copies, now, s.spamTime);
    PruneAllRecent(copies, now, s.spamTime);
    var window := Prune(earlier, now, s.spamTime) + copies;
    assert SpamWindow(hist, m, s, now) == window;
    var k := |window|;
    assert window[k - 3] == e1 && window[k - 2] == e2 && window[k - 1] == e3;
    RepeatIff(window);
  }

  /** The repeat check depends on the spam check: two earlier copies of a
      text inside the spam window make the third a repeat, also when the
      spam check itself stays quiet. */
  lemma {:induction false} ThirdCopyIsRepeat(h: PerUser<seq<HistoryEntry>>, m: Message, s: Settings, words: seq<string>,
                                             now: int, earlier: seq<HistoryEntry>, t1: int, t2: int)
    requires s.antiSpam && s.antiRepeat && s.spamTime > 0
    requires History(h, m.guildId, m.authorId) == earlier + [HistoryEntry(t1, m.content), HistoryEntry(t2, m.content)]
    requires now - t1 < s.spamTime && now - t2 < s.spamTime
    ensures Repeat in Verdicts(h, m, s, words, now)
  {
    var g, u := m.guildId, m.authorId;
    var hist := History(h, g, u);
    WithUserValueIsolated(h, g, u, SpamWindow(hist, m, s, now));
    var window := History(HistoryAfter(h, m, s, now), g, u);
    assert window == SpamWindow(hist, m, s, now);
    WindowRepeats(hist, m, s, now, earlier, t1, t2);
    CollectedComplete(m, s, words, SpamVerdict(window, s), window);
  }

  /** With the spam check off nothing writes the history, so a user without
      history is never flagged for repeating, however often a text is sent. */
  lemma {:induction false} NoSpamCheckNoRepeat(h: PerUser<seq<HistoryEntry>>, m: Message, s: Settings, words: seq<string>,
                                               now: int)
    requires !s.antiSpam && History(h, m.guildId, m.authorId) == []
    ensures HistoryAfter(h, m, s, now) == h
    ensures Repeat !in Verdicts(h, m, s, words, now)
  {
    CollectedRepeatSound(m, s, words, None, []);
  }

  /** The list comprehension of `check_spam`, one entry at a time: keep the
      entries strictly younger than the window, in their order. */
  method KeepRecent(msgs: seq<HistoryEntry>, now: int, window: int) returns (kept: seq<HistoryEntry>)
    ensures kept == Prune(msgs, now, window)
  {
    kept := [];
    var i := 0;
    while i < |msgs|
      invariant 0 <= i <= |msgs|
      invariant kept == Prune(msgs[..i], now, window)
    {
      PruneConcat(msgs[..i], [msgs[i]], now, window);
      assert msgs[..i + 1] == msgs[..i] + [msgs[i]];
      assert [msgs[i]][1..] == [];
      if now - msgs[i].time < window {
        kept := kept + [msgs[i]];
      }
      i := i + 1;
    }
    assert msgs[..i] == msgs;
  }

  /** The enforcement steps of `handle_violation` for a warning count, in
      order: delete, warn, mute from the third warning, kick from the fifth,
      each only when its switch is on. */
  method Escalate(count: int, a: ActionSwitches) returns (actions: seq<Action>)
    ensures actions == EscalationActions(count, a)
  {
    actions := [];
    if a.delete {
      actions := actions + [DeleteMessage];
    }
    ghost var deleted := actions;
    if a.warn {
      actions := actions + [SendWarning(count)];
    }
    assert actions == deleted + (if a.warn then [SendWarning(count)] else []);
    ghost var warned := actions;
    if count >= MuteAt && a.mute {
      actions := actions + [Timeout(MuteMinutes)];
    }
    assert actions == warned + (if count >= MuteAt && a.mute then [Timeout(MuteMinutes)] else []);
    if count >= KickAt && a.kick {
      actions := actions + [KickMember];
    }
  }

  class AdvancedAutoMod {
    var messageHistory: PerUser<seq<HistoryEntry>>
    var spamWarnings: PerUser<int>
    var modLogs: map<string, seq<LogEntry>>

    constructor ()
      ensures messageHistory == map[] && spamWarnings == map[] && modLogs == map[]
    {
      messageHistory := map[];
      spamWarnings := map[];
      modLogs := map[];
    }

    /** `check_spam`: append the message to the user's history, drop every
        entry at least `spam_time` old, and report spam when more than
        `spam_limit` remain. Only the history changes. */
    method CheckSpam(m: Message, s: Settings, now: int) returns (r: Option<Violation>)
      modifies this
      ensures messageHistory ==
        WithUserValue(old(messageHistory), m.guildId, m.authorId,
                      SpamWindow(History(old(messageHistory), m.guildId, m.authorId), m, s, now))
      ensures r == SpamVerdict(History(messageHistory, m.guildId, m.authorId), s)
      ensures spamWarnings == old(spamWarnings) && modLogs == old(modLogs)
    {
      var g, u := m.guildId, m.authorId;
      var msgs := History(messageHistory, g, u) + [HistoryEntry(now, m.content)];
      var kept := KeepRecent(msgs, now, s.spamTime);
      messageHistory := WithUserValue(messageHistory, g, u, kept);
      WithUserValueIsolated(old(messageHistory), g, u, kept);
      if |kept| > s.spamLimit {
        r := Some(Spam(|kept|));
      } else {
        r := None;
      }
    }

    /** `check_repeat`: reads the history the spam check left; a user with
        no history is never flagged. */
    function CheckRepeat(m: Message): (r: Option<Violation>)
      reads this
      ensures (m.guildId !in messageHistory || m.authorId !in messageHistory[m.guildId]) ==> r == None
      ensures r == RepeatViolation(History(messageHistory, m.guildId, m.authorId))
    {
      if m.guildId !in messageHistory then None
      else if m.authorId !in messageHistory[m.guildId] then None
      else RepeatViolation(messageHistory[m.guildId][m.authorId])
    }

    /** `log_violation`: append one entry to the group's log and keep the
        newest hundred. */
    method LogViolation(m: Message, vs: seq<Violation>, count: int, now: int)
      modifies this
      ensures modLogs == old(modLogs)[m.guildId := AppendBounded(LogOf(old(modLogs), m.guildId), MakeLogEntry(m, vs, count, now))]
      ensures messageHistory == old(messageHistory) && spamWarnings == old(spamWarnings)
    {
      var log := LogOf(modLogs, m.guildId);
      var entry := MakeLogEntry(m, vs, count, now);
      log := log + [entry];
      if |log| > LogCapacity {
        log := log[|log| - LogCapacity..];
      }
      modLogs := modLogs[m.guildId := log];
    }

    /** `handle_violation`: raise the user's count, log, then emit the
        actions of the new count. The delayed reset is ResetWarnings. */
    method HandleViolation(m: Message, vs: seq<Violation>, a: ActionSwitches, now: int) returns (actions: seq<Action>)
      modifies this
      ensures spamWarnings == Bumped(old(spamWarnings), m.guildId, m.authorId)
      ensures modLogs == old(modLogs)[m.guildId :=
        AppendBounded(LogOf(old(modLogs), m.guildId),
                      MakeLogEntry(m, vs, WarningCount(spamWarnings, m.guildId, m.authorId), now))]
      ensures actions == EscalationActions(WarningCount(spamWarnings, m.guildId, m.authorId), a)
      ensures messageHistory == old(messageHistory)
    {
      var g, u := m.guildId, m.authorId;
      var count := WarningCount(spamWarnings, g, u) + 1;
      spamWarnings := WithUserValue(spamWarnings, g, u, count);
      LogViolation(m, vs, count, now);
      actions := Escalate(count, a);
    }

    /** `reset_warnings_after_time` once its hour has passed, and the admin
        reset command: an existing count becomes 0. */
    method ResetWarnings(g: string, u: string)
      modifies this
      ensures spamWarnings == ResetCount(old(spamWarnings), g, u)
      ensures messageHistory == old(messageHistory) && modLogs == old(modLogs)
    {
      if g in spamWarnings && u in spamWarnings[g] {
        spamWarnings := spamWarnings[g := spamWarnings[g][u := 0]];
      }
    }

    /** `check_message`: skip exempt authors and disabled groups; otherwise
        run the switched-on checks in order and hand any records to
        HandleViolation. `flagged` is the returned boolean. */
    method CheckMessage(m: Message, s: Settings, badWords: map<string, seq<string>>, now: int)
      returns (flagged: bool, actions: seq<Action>)
      modifies this
      ensures !Moderated(m, s) ==>
        !flagged && actions == [] &&
        messageHistory == old(messageHistory) && spamWarnings == old(spamWarnings) && modLogs == old(modLogs)
      ensures Moderated(m, s) ==>
        messageHistory == HistoryAfter(old(messageHistory), m, s, now) &&
        flagged == (Verdicts(old(messageHistory), m, s, WordList(badWords, m.guildId), now) != [])
      ensures Moderated(m, s) && !flagged ==>
        actions == [] && spamWarnings == old(spamWarnings) && modLogs == old(modLogs)
      ensures Moderated(m, s) && flagged ==>
        var count := WarningCount(spamWarnings, m.guildId, m.authorId);
        spamWarnings == Bumped(old(spamWarnings), m.guildId, m.authorId) &&
        modLogs == old(modLogs)[m.guildId :=
          AppendBounded(LogOf(old(modLogs), m.guildId),
                        MakeLogEntry(m, Verdicts(old(messageHistory), m, s, WordList(badWords, m.guildId), now), count, now))] &&
        actions == EscalationActions(count, s.actions)
    {
      flagged, actions := false, [];
      if Exempt(m) || !s.enabled {
        return;
      }
      var spam: Option<Violation> := None;
      if s.antiSpam {
        spam := CheckSpam(m, s, now);
      }
      assert messageHistory == HistoryAfter(old(messageHistory), m, s, now);
      var vs := Collected(m, s, WordList(badWords, m.guildId), spam, History(messageHistory, m.guildId, m.authorId));
      if vs != [] {
        actions := HandleViolation(m, vs, s.actions, now);
        flagged := true;
      }
    }
  }
}
