/** The pure part of the auto-moderation engine (class `AdvancedAutoMod` of
    database.py): the data it works on, the eight rule evaluators, the
    severity weighting, the escalation ladder and the bounded violation log.
    The state the engine keeps between messages lives in module AutoMod. */
module AutoModRules {
  import opened Common

  type Pos = n: int | n > 0 witness 1

  // ---------------------------------------------------------------------
  // Data model

  /** The `actions` switches of a group's auto-moderation settings. */
  datatype ActionSwitches = ActionSwitches(warn: bool, delete: bool, mute: bool, kick: bool)

  /** A group's `auto_mod` settings with every key resolved; a key the group
      never set takes its value from DefaultSettings. The float
      `caps_threshold` is the fraction capsNum / capsDen. */
  datatype Settings = Settings(
    enabled: bool,
    antiSpam: bool, antiMention: bool, antiCaps: bool, antiLinks: bool,
    antiBadWords: bool, antiRepeat: bool, antiEmojiSpam: bool, antiInvites: bool,
    spamLimit: int, spamTime: int, mentionLimit: int,
    capsNum: int, capsDen: Pos,
    allowedDomains: seq<string>,
    actions: ActionSwitches)

  /** The defaults the engine reads when a key is absent: moderation on, every
      check on except links, 5 messages in 5 seconds, 5 mentions, 70% capitals,
      and delete + warn + mute but no kick. */
  const DefaultSettings := Settings(
    true,
    true, true, true, false,
    true, true, true, true,
    5, 5, 5,
    7, 10,
    [],
    ActionSwitches(true, true, true, false))

  /** One inbound message as the evaluators see it. The regular expressions
      of the source are abstracted: `linkHosts` holds, for each URL the link
      pattern finds, the host the host pattern extracts (None when it finds
      none); `emojiCount` is the number of emoji-pattern matches; `hasInvite`
      says whether the invite pattern matches. */
  datatype Message = Message(
    guildId: string, authorId: string, authorName: string,
    isBot: bool, isAdmin: bool, canMentionEveryone: bool, canManageGuild: bool,
    content: string,
    userMentions: nat, roleMentions: nat,
    linkHosts: seq<Option<string>>,
    emojiCount: nat,
    hasInvite: bool)

  /** A violation record; the payload is what the record's reason reports. */
  datatype Violation =
    | Spam(messages: nat)
    | MassMention(mentions: nat)
    | EveryoneMention
    | Caps(upper: nat, length: nat)
    | Link(host: string)
    | BadWord(word: string)
    | Repeat
    | EmojiSpam(emojis: nat)
    | Invite

  /** The record's `type` field. */
  function TypeTag(v: Violation): string
  {
    match v
    case Spam(_) => "spam"
    case MassMention(_) => "mass_mention"
    case EveryoneMention => "everyone_mention"
    case Caps(_, _) => "caps"
    case Link(_) => "link"
    case BadWord(_) => "bad_word"
    case Repeat => "repeat"
    case EmojiSpam(_) => "emoji_spam"
    case Invite => "invite"
  }

  /** One entry of a user's message history. */
  datatype HistoryEntry = HistoryEntry(time: int, content: string)

  /** Admins and bots are never moderated. */
  predicate Exempt(m: Message)
  {
    m.isBot || m.isAdmin
  }

  // ---------------------------------------------------------------------
  // 1. Spam: the history window

  predicate Recent(e: HistoryEntry, now: int, window: int)
  {
    now - e.time < window
  }

  /** The list comprehension that keeps the entries younger than the window. */
  function Prune(msgs: seq<HistoryEntry>, now: int, window: int): (r: seq<HistoryEntry>)
    ensures |r| <= |msgs|
    ensures forall e :: e in r ==> e in msgs && Recent(e, now, window)
  {
    if msgs == [] then []
    else (if Recent(msgs[0], now, window) then [msgs[0]] else []) + Prune(msgs[1..], now, window)
  }

  /** Pruning keeps order: it works piecewise on a concatenation. */
  lemma {:induction false} PruneConcat(a: seq<HistoryEntry>, b: seq<HistoryEntry>, now: int, window: int)
    ensures Prune(a + b, now, window) == Prune(a, now, window) + Prune(b, now, window)
    decreases |a|
  {
    if a == [] {
      assert a + b == b;
    } else {
      assert (a + b)[1..] == a[1..] + b;
      PruneConcat(a[1..], b, now, window);
    }
  }

  /** Nothing young enough is lost. */
  lemma {:induction false} PruneKeepsRecent(msgs: seq<HistoryEntry>, now: int, window: int, e: HistoryEntry)
    requires e in msgs && Recent(e, now, window)
    ensures e in Prune(msgs, now, window)
    decreases |msgs|
  {
    if msgs[0] != e {
      PruneKeepsRecent(msgs[1..], now, window, e);
    }
  }

  /** A window whose entries are all young is kept whole. */
  lemma {:induction false} PruneAllRecent(msgs: seq<HistoryEntry>, now: int, window: int)
    requires forall i :: 0 <= i < |msgs| ==> Recent(msgs[i], now, window)
    ensures Prune(msgs, now, window) == msgs
    decreases |msgs|
  {
    if msgs != [] {
      PruneAllRecent(msgs[1..], now, window);
    }
  }

  /** A window whose entries are all old is emptied. */
  lemma {:induction false} PruneNoneRecent(msgs: seq<HistoryEntry>, now: int, window: int)
    requires forall i :: 0 <= i < |msgs| ==> !Recent(msgs[i], now, window)
    ensures Prune(msgs, now, window) == []
    decreases |msgs|
  {
    if msgs != [] {
      PruneNoneRecent(msgs[1..], now, window);
    }
  }

  /** Pruning twice at the same instant is pruning once. */
  lemma {:induction false} PruneIdempotent(msgs: seq<HistoryEntry>, now: int, window: int)
    ensures Prune(Prune(msgs, now, window), now, window) == Prune(msgs, now, window)
  {
    var p := Prune(msgs, now, window);
    assert forall i :: 0 <= i < |p| ==> p[i] in p;
    PruneAllRecent(p, now, window);
  }

  /** The user's history after `check_spam`: the new message appended, then
      every entry at least `spam_time` old dropped. */
  function SpamWindow(hist: seq<HistoryEntry>, m: Message, s: Settings, now: int): (r: seq<HistoryEntry>)
    ensures |r| <= |hist| + 1
    ensures forall e :: e in r ==> e in hist || e == HistoryEntry(now, m.content)
  {
    Prune(hist + [HistoryEntry(now, m.content)], now, s.spamTime)
  }

  /** The history `check_spam` leaves holds only entries strictly younger than
      the window. With a positive window its newest entry is the message just
      checked, preceded by the pruned earlier history; with a window of zero
      or less the message just checked is pruned at once. */
  lemma {:induction false} SpamWindowShape(hist: seq<HistoryEntry>, m: Message, s: Settings, now: int)
    ensures forall e :: e in SpamWindow(hist, m, s, now) ==> now - e.time < s.spamTime
    ensures s.spamTime > 0 ==>
      var w := SpamWindow(hist, m, s, now);
      w != [] && w[|w| - 1] == HistoryEntry(now, m.content) && w[..|w| - 1] == Prune(hist, now, s.spamTime)
    ensures s.spamTime <= 0 ==> SpamWindow(hist, m, s, now) == Prune(hist, now, s.spamTime)
  {
    var e := HistoryEntry(now, m.content);
    var w := SpamWindow(hist, m, s, now);
    PruneConcat(hist, [e], now, s.spamTime);
    var tail := Prune([e], now, s.spamTime);
    assert [e][1..] == [];
    assert tail == (if Recent(e, now, s.spamTime) then [e] else []);
    assert w == Prune(hist, now, s.spamTime) + tail;
  }

  function SpamVerdict(window: seq<HistoryEntry>, s: Settings): (r: Option<Violation>)
    ensures r.Some? <==> |window| > s.spamLimit
    ensures r.Some? ==> r.value == Spam(|window|)
  {
    if |window| > s.spamLimit then Some(Spam(|window|)) else None
  }

  /** `spam_limit` earlier messages inside the window plus the current one
      trigger exactly one spam record. */
  lemma {:induction false} SpamAtLimitPlusOne(hist: seq<HistoryEntry>, m: Message, s: Settings, now: int)
    requires s.spamTime > 0 && |hist| == s.spamLimit
    requires forall i :: 0 <= i < |hist| ==> now - hist[i].time < s.spamTime
    ensures SpamVerdict(SpamWindow(hist, m, s, now), s) == Some(Spam(s.spamLimit + 1))
  {
    PruneConcat(hist, [HistoryEntry(now, m.content)], now, s.spamTime);
    PruneAllRecent(hist, now, s.spamTime);
  }

  /** The same messages spread beyond the window do not. */
  lemma {:induction false} SpamQuietOutsideWindow(hist: seq<HistoryEntry>, m: Message, s: Settings, now: int)
    requires s.spamTime > 0 && s.spamLimit >= 1
    requires forall i :: 0 <= i < |hist| ==> now - hist[i].time >= s.spamTime
    ensures SpamVerdict(SpamWindow(hist, m, s, now), s) == None
  {
    PruneConcat(hist, [HistoryEntry(now, m.content)], now, s.spamTime);
    PruneNoneRecent(hist, now, s.spamTime);
  }

  // ---------------------------------------------------------------------
  // 2. Mentions

  function MentionCount(m: Message): nat
  {
    m.userMentions + m.roleMentions
  }

  predicate MentionsBroadcast(text: string)
  {
    Contains(text, "@everyone") || Contains(text, "@here")
  }

  /** At most one record: mass mention wins; otherwise a broadcast tag
      without the permission. */
  function MentionViolation(m: Message, s: Settings): (r: Option<Violation>)
    ensures r.Some? && r.value.MassMention? <==> MentionCount(m) > s.mentionLimit
    ensures r == Some(EveryoneMention) <==>
      MentionCount(m) <= s.mentionLimit && MentionsBroadcast(m.content) && !m.canMentionEveryone
    ensures r.Some? ==> r.value == MassMention(MentionCount(m)) || r.value == EveryoneMention
  {
    if MentionCount(m) > s.mentionLimit then Some(MassMention(MentionCount(m)))
    else if MentionsBroadcast(m.content) && !m.canMentionEveryone then Some(EveryoneMention)
    else None
  }

  /** "@everyone" or "@here" anywhere in the text from a member without the
      permission, within the mention limit, is an everyone_mention. */
  lemma {:induction false} EveryoneMentionInText(m: Message, s: Settings, pre: string, tag: string, post: string)
    requires tag == "@everyone" || tag == "@here"
    requires m.content == pre + tag + post
    requires MentionCount(m) <= s.mentionLimit && !m.canMentionEveryone
    ensures MentionViolation(m, s) == Some(EveryoneMention)
  {
    ContainsInfix(pre, tag, post);
  }

  // ---------------------------------------------------------------------
  // 3. Caps

  const CapsMinLength := 10

  /** Flags a message of at least 10 characters whose share of capitals is
      strictly above the threshold, compared exactly as upper/len > num/den. */
  function CapsViolation(m: Message, s: Settings): (r: Option<Violation>)
    ensures |m.content| < CapsMinLength ==> r == None
    ensures r.Some? <==> |m.content| >= CapsMinLength && CountUpper(m.content) * s.capsDen > s.capsNum * |m.content|
    ensures r.Some? ==> r.value == Caps(CountUpper(m.content), |m.content|)
  {
    if |m.content| < CapsMinLength then None
    else
      var upper := CountUpper(m.content);
      if upper * s.capsDen > s.capsNum * |m.content| then Some(Caps(upper, |m.content|)) else None
  }

  /** A ratio exactly at the threshold is not flagged. */
  lemma {:induction false} CapsAtThresholdQuiet(m: Message, s: Settings)
    requires CountUpper(m.content) * s.capsDen == s.capsNum * |m.content|
    ensures CapsViolation(m, s) == None
  {
  }

  /** A threshold of 100% or more can never be exceeded. */
  lemma {:induction false} CapsFullThresholdQuiet(m: Message, s: Settings)
    requires s.capsNum >= s.capsDen
    ensures CapsViolation(m, s) == None
  {
    var n := |m.content|;
    var u := CountUpper(m.content);
    assert u <= n;
    assert u * s.capsDen <= n * s.capsDen;
    assert n * s.capsDen <= n * s.capsNum;
  }

  /** Lower-cased text is never flagged when the threshold is not negative. */
  lemma {:induction false} CapsLowerCaseQuiet(m: Message, s: Settings)
    requires m.content == Lower(m.content) && s.capsNum >= 0
    ensures CapsViolation(m, s) == None
  {
    CountUpperOfLower(m.content);
  }

  /** With the default 70% threshold, a 20-character text with 15 capitals is
      flagged and one with exactly 14 (70%) is not. */
  lemma {:induction false} CapsDefaultThreshold(m: Message, caps: string, rest: string)
    requires |caps| + |rest| == 20 && m.content == caps + rest
    requires forall i :: 0 <= i < |caps| ==> IsUpperChar(caps[i])
    requires CountUpper(rest) == 0
    ensures |caps| == 15 ==> CapsViolation(m, DefaultSettings) == Some(Caps(15, 20))
    ensures |caps| == 14 ==> CapsViolation(m, DefaultSettings) == None
  {
    CountUpperConcat(caps, rest);
    CountUpperAll(caps);
  }

  // ---------------------------------------------------------------------
  // 4. Links

  /** The built-in hosts that are always allowed. */
  const SafeDomains: seq<string> :=
    ["discord.com", "discord.gg", "youtube.com", "youtu.be",
     "twitch.tv", "github.com", "imgur.com", "gyazo.com"]

  /** `any(d in domain_name for d in allowed)`: a host passes when ANY allowed
      entry occurs in it as a substring. */
  predicate HostAllowed(host: string, allowed: seq<string>)
  {
    exists i | 0 <= i < |allowed| :: Contains(host, allowed[i])
  }

  /** The allow rule read positionally: a host passes exactly when some
      allowed entry starts at some position of it. */
  lemma {:induction false} HostAllowedAt(host: string, allowed: seq<string>)
    ensures HostAllowed(host, allowed) <==>
            exists i, j | 0 <= i < |allowed| && 0 <= j <= |host| :: allowed[i] <= host[j..]
  {
    forall i | 0 <= i < |allowed|
      ensures Contains(host, allowed[i]) <==> exists j | 0 <= j <= |host| :: allowed[i] <= host[j..]
    {
      ContainsAt(host, allowed[i]);
    }
  }

  /** The first URL host that no allowed entry occurs in. */
  function FirstForbiddenHost(hosts: seq<Option<string>>, allowed: seq<string>): (r: Option<string>)
    ensures r.Some? ==> Some(r.value) in hosts && !HostAllowed(r.value, allowed)
  {
    if hosts == [] then None
    else if hosts[0].Some? && !HostAllowed(hosts[0].value, allowed) then hosts[0]
    else FirstForbiddenHost(hosts[1..], allowed)
  }

  /** The first forbidden host is reported and every earlier URL passed;
      when nothing is reported, every URL's host passed. */
  lemma {:induction false} FirstForbiddenHostIsFirst(hosts: seq<Option<string>>, allowed: seq<string>)
    ensures FirstForbiddenHost(hosts, allowed).None? <==>
      forall i :: 0 <= i < |hosts| && hosts[i].Some? ==> HostAllowed(hosts[i].value, allowed)
    ensures FirstForbiddenHost(hosts, allowed).Some? ==>
      exists k :: 0 <= k < |hosts| && hosts[k] == FirstForbiddenHost(hosts, allowed) &&
        forall i :: 0 <= i < k && hosts[i].Some? ==> HostAllowed(hosts[i].value, allowed)
    decreases |hosts|
  {
    if hosts != [] {
      FirstForbiddenHostIsFirst(hosts[1..], allowed);
      if !(hosts[0].Some? && !HostAllowed(hosts[0].value, allowed)) {
        var r := FirstForbiddenHost(hosts, allowed);
        if r.Some? {
          var k :| 0 <= k < |hosts[1..]| && hosts[1..][k] == r &&
            forall i :: 0 <= i < k && hosts[1..][i].Some? ==> HostAllowed(hosts[1..][i].value, allowed);
          assert hosts[k + 1] == r;
          assert forall i :: 0 <= i < k + 1 && hosts[i].Some? ==> HostAllowed(hosts[i].value, allowed) by {
            forall i | 0 <= i < k + 1 && hosts[i].Some?
              ensures HostAllowed(hosts[i].value, allowed)
            {
              if i > 0 {
                assert hosts[i] == hosts[1..][i - 1];
              }
            }
          }
        } else {
          assert forall i :: 0 <= i < |hosts| && hosts[i].Some? ==> HostAllowed(hosts[i].value, allowed) by {
            forall i | 0 <= i < |hosts| && hosts[i].Some?
              ensures HostAllowed(hosts[i].value, allowed)
            {
              if i > 0 {
                assert hosts[i] == hosts[1..][i - 1];
              }
            }
          }
        }
      }
    }
  }

  /** The first URL whose host passes neither the group's domains nor the
      safe list; nothing when every extracted host passes. */
  function LinkViolation(m: Message, s: Settings): (r: Option<Violation>)
    ensures r.Some? ==>
      (r.value.Link? && Some(r.value.host) in m.linkHosts &&
       !HostAllowed(r.value.host, s.allowedDomains + SafeDomains))
    ensures r.None? <==>
      forall i :: 0 <= i < |m.linkHosts| && m.linkHosts[i].Some? ==>
        HostAllowed(m.linkHosts[i].value, s.allowedDomains + SafeDomains)
    ensures r.Some? ==>
      exists k :: 0 <= k < |m.linkHosts| && m.linkHosts[k] == Some(r.value.host) &&
        forall i :: 0 <= i < k && m.linkHosts[i].Some? ==>
          HostAllowed(m.linkHosts[i].value, s.allowedDomains + SafeDomains)
  {
    FirstForbiddenHostIsFirst(m.linkHosts, s.allowedDomains + SafeDomains);
    var found := FirstForbiddenHost(m.linkHosts, s.allowedDomains + SafeDomains);
    if found.Some? then Some(Link(found.value)) else None
  }

  /** Because the allow rule is a substring test, any host that merely
      contains a safe domain, such as "github.com.example.net", passes. */
  lemma {:induction false} SafeDomainSubstringPasses(allowed: seq<string>, pre: string, i: nat, post: string)
    requires i < |SafeDomains|
    ensures HostAllowed(pre + SafeDomains[i] + post, allowed + SafeDomains)
  {
    ContainsInfix(pre, SafeDomains[i], post);
    assert (allowed + SafeDomains)[|allowed| + i] == SafeDomains[i];
  }

  // ---------------------------------------------------------------------
  // 5. Bad words

  /** The group's banned-word list: the `bad_words` document is keyed by the
      group id once more, and an absent entry is the empty list. */
  function WordList(doc: map<string, seq<string>>, guildId: string): seq<string>
  {
    if guildId in doc then doc[guildId] else []
  }

  /** `w` is listed at some position k, occurs in the text, and no word
      listed before k does. */
  predicate FirstListedHit(words: seq<string>, text: string, w: string)
  {
    exists k :: 0 <= k < |words| && words[k] == w && Contains(text, w) &&
                forall j :: 0 <= j < k ==> !Contains(text, words[j])
  }

  /** The first listed word that occurs in the text. */
  function FirstBannedWord(words: seq<string>, text: string): (r: Option<string>)
    ensures r.Some? ==> FirstListedHit(words, text, r.value)
    ensures r.None? <==> forall i :: 0 <= i < |words| ==> !Contains(text, words[i])
  {
    if words == [] then None
    else if Contains(text, words[0]) then
      assert FirstListedHit(words, text, words[0]);
      Some(words[0])
    else
      var rest := FirstBannedWord(words[1..], text);
      assert forall i :: 1 <= i < |words| ==> words[i] == words[1..][i - 1];
      assert rest.Some? ==> FirstListedHit(words, text, rest.value) by {
        if rest.Some? {
          var k :| 0 <= k < |words[1..]| && words[1..][k] == rest.value && Contains(text, rest.value) &&
                   forall j :: 0 <= j < k ==> !Contains(text, words[1..][j]);
          assert words[k + 1] == rest.value;
          assert forall j :: 0 <= j < k + 1 ==> !Contains(text, words[j]);
        }
      }
      rest
  }

  /** The search runs over the lower-cased text and reports the first listed
      word found there. */
  function BadWordViolation(m: Message, words: seq<string>): (r: Option<Violation>)
    ensures r.Some? ==> r.value.BadWord?
    ensures r.Some? ==> FirstListedHit(words, Lower(m.content), r.value.word)
    ensures r.None? <==> forall i :: 0 <= i < |words| ==> !Contains(Lower(m.content), words[i])
  {
    var found := FirstBannedWord(words, Lower(m.content));
    if found.Some? then Some(BadWord(found.value)) else None
  }

  /** The check is case-insensitive: lower-casing the message first changes nothing. */
  lemma {:induction false} BadWordCaseInsensitive(m: Message, words: seq<string>)
    ensures BadWordViolation(m.(content := Lower(m.content)), words) == BadWordViolation(m, words)
  {
    LowerIdempotent(m.content);
  }

  /** A listed word is caught in any letter case: whatever surrounds it,
      `word` written into a message is caught by the entry `word.lower()`
      ("this is a TEST message" by "test"). */
  lemma {:induction false} BadWordAnyCase(m: Message, pre: string, word: string, post: string)
    requires m.content == pre + word + post
    ensures BadWordViolation(m, [Lower(word)]) == Some(BadWord(Lower(word)))
  {
    LowerConcat(pre + word, post);
    LowerConcat(pre, word);
    ContainsInfix(Lower(pre), Lower(word), Lower(post));
  }

  // ---------------------------------------------------------------------
  // 6. Repeat

  const RepeatWindow := 5
  const RepeatRun := 3

  /** `user_messages[-5:]` */
  function LastFive(msgs: seq<HistoryEntry>): (r: seq<HistoryEntry>)
    ensures |r| == (if |msgs| < RepeatWindow then |msgs| else RepeatWindow)
  {
    if |msgs| > RepeatWindow then msgs[|msgs| - RepeatWindow..] else msgs
  }

  /** The window is the suffix of the history: the history is what came
      before it followed by the window. */
  lemma {:induction false} LastFiveSuffix(msgs: seq<HistoryEntry>)
    ensures var r := LastFive(msgs); r == msgs[|msgs| - |r|..] && msgs == msgs[..|msgs| - |r|] + r
  {
    assert msgs[..0] + msgs == msgs;
  }

  /** Flags when the last five entries hold at least three and the set of the
      last three stripped contents has one element. */
  function RepeatViolation(msgs: seq<HistoryEntry>): (r: Option<Violation>)
    ensures r == None || r == Some(Repeat)
  {
    var recent := LastFive(msgs);
    if |recent| >= RepeatRun then
      var n := |recent|;
      if OneDistinct(Strip(recent[n - 3].content), Strip(recent[n - 2].content), Strip(recent[n - 1].content))
      then Some(Repeat) else None
    else None
  }

  /** `len(set([a, b, c])) == 1` */
  predicate OneDistinct(a: string, b: string, c: string)
  {
    |{a, b, c}| == 1
  }

  lemma {:induction false} ThreeSetSingleton(a: string, b: string, c: string)
    ensures OneDistinct(a, b, c) <==> a == b && b == c
  {
    if a == b && b == c {
      assert {a, b, c} == {a};
    } else if a == b {
      assert {a, b, c} == {a, c};
    } else if b == c {
      assert {a, b, c} == {a, b};
    } else if a == c {
      assert {a, b, c} == {a, b};
    } else {
      assert {a, b, c} == {a, b} + {c};
    }
  }

  /** The five-entry slice does not matter: a repeat is flagged exactly when
      the whole history has at least three entries and its last three stripped
      contents are equal. */
  lemma {:induction false} RepeatIff(msgs: seq<HistoryEntry>)
    ensures RepeatViolation(msgs) == Some(Repeat) <==>
      |msgs| >= RepeatRun &&
      Strip(msgs[|msgs| - 3].content) == Strip(msgs[|msgs| - 2].content) &&
      Strip(msgs[|msgs| - 2].content) == Strip(msgs[|msgs| - 1].content)
  {
    var k := |msgs|;
    if k >= RepeatRun {
      RepeatUnfold(msgs);
      ThreeSetSingleton(Strip(msgs[k - 3].content), Strip(msgs[k - 2].content), Strip(msgs[k - 1].content));
    } else {
      assert |LastFive(msgs)| < RepeatRun;
    }
  }

  lemma {:induction false} RepeatUnfold(msgs: seq<HistoryEntry>)
    requires |msgs| >= RepeatRun
    ensures RepeatViolation(msgs) ==
      var k := |msgs|;
      if OneDistinct(Strip(msgs[k - 3].content), Strip(msgs[k - 2].content), Strip(msgs[k - 1].content))
      then Some(Repeat) else None
  {
    var k := |msgs|;
    var recent := LastFive(msgs);
    var n := |recent|;
    assert recent[n - 3] == msgs[k - 3] && recent[n - 2] == msgs[k - 2] && recent[n - 1] == msgs[k - 1];
  }

  /** The same text sent three times in a row, white space padding aside,
      is a repeat. */
  lemma {:induction false} RepeatThirdTime(earlier: seq<HistoryEntry>, t1: int, t2: int, t3: int, text: string, pad: string)
    requires text != [] && !IsSpace(text[0]) && !IsSpace(text[|text| - 1])
    requires forall i :: 0 <= i < |pad| ==> IsSpace(pad[i])
    ensures RepeatViolation(earlier + [HistoryEntry(t1, text), HistoryEntry(t2, pad + text), HistoryEntry(t3, text + pad)]) == Some(Repeat)
  {
    var msgs := earlier + [HistoryEntry(t1, text), HistoryEntry(t2, pad + text), HistoryEntry(t3, text + pad)];
    var k := |msgs|;
    assert msgs[k - 3].content == text && msgs[k - 2].content == pad + text && msgs[k - 1].content == text + pad;
    StripClean(text);
    StripLeadingPad(pad, text);
    StripTrailingPad(text, pad);
    RepeatIff(msgs);
  }

  /** Two copies after a different text are not a repeat. */
  lemma {:induction false} RepeatNotTwice(t1: int, t2: int, t3: int, other: string, text: string)
    requires Strip(other) != Strip(text)
    ensures RepeatViolation([HistoryEntry(t1, other), HistoryEntry(t2, text), HistoryEntry(t3, text)]) == None
  {
    RepeatIff([HistoryEntry(t1, other), HistoryEntry(t2, text), HistoryEntry(t3, text)]);
  }

  // ---------------------------------------------------------------------
  // 7. Emoji spam and 8. invites

  const EmojiLimit := 5

  function EmojiViolation(m: Message): (r: Option<Violation>)
    ensures r.Some? <==> m.emojiCount > EmojiLimit
    ensures r.Some? ==> r.value == EmojiSpam(m.emojiCount)
  {
    if m.emojiCount > EmojiLimit then Some(EmojiSpam(m.emojiCount)) else None
  }

  function InviteViolation(m: Message): (r: Option<Violation>)
    ensures r == Some(Invite) <==> m.hasInvite && !m.canManageGuild
    ensures r != Some(Invite) ==> r == None
  {
    if m.hasInvite && !m.canManageGuild then Some(Invite) else None
  }

  // ---------------------------------------------------------------------
  // The aggregation of `check_message`

  /** The contribution of one check: its record if it is switched on and fires. */
  function Part(on: bool, o: Option<Violation>): (r: seq<Violation>)
    ensures |r| <= 1
    ensures forall v :: v in r ==> on && o == Some(v)
    ensures on && o.Some? ==> r == [o.value]
  {
    if on && o.Some? then [o.value] else []
  }

  /** The violations `check_message` collects, in its fixed order, from the
      spam result and the history the spam check left behind. */
  function Collected(m: Message, s: Settings, words: seq<string>, spam: Option<Violation>,
                     hist: seq<HistoryEntry>): (r: seq<Violation>)
    ensures |r| <= 8
    ensures r == [] <==>
      !(s.antiSpam && spam.Some?) && !(s.antiMention && MentionViolation(m, s).Some?) &&
      !(s.antiCaps && CapsViolation(m, s).Some?) && !(s.antiLinks && LinkViolation(m, s).Some?) &&
      !(s.antiBadWords && BadWordViolation(m, words).Some?) && !(s.antiRepeat && RepeatViolation(hist).Some?) &&
      !(s.antiEmojiSpam && EmojiViolation(m).Some?) && !(s.antiInvites && InviteViolation(m).Some?)
  {
    Part(s.antiSpam, spam) +
    Part(s.antiMention, MentionViolation(m, s)) +
    Part(s.antiCaps, CapsViolation(m, s)) +
    Part(s.antiLinks, LinkViolation(m, s)) +
    Part(s.antiBadWords, BadWordViolation(m, words)) +
    Part(s.antiRepeat, RepeatViolation(hist)) +
    Part(s.antiEmojiSpam, EmojiViolation(m)) +
    Part(s.antiInvites, InviteViolation(m))
  }

  /** The switch that guards the check producing a given record. */
  predicate CheckEnabled(s: Settings, v: Violation)
  {
    match v
    case Spam(_) => s.antiSpam
    case MassMention(_) => s.antiMention
    case EveryoneMention => s.antiMention
    case Caps(_, _) => s.antiCaps
    case Link(_) => s.antiLinks
    case BadWord(_) => s.antiBadWords
    case Repeat => s.antiRepeat
    case EmojiSpam(_) => s.antiEmojiSpam
    case Invite => s.antiInvites
  }

  /** Every record a check produces is of that check's kinds. */
  lemma {:induction false} ChecksProduceTheirKinds(m: Message, s: Settings, words: seq<string>, hist: seq<HistoryEntry>)
    ensures forall v :: v in Part(s.antiMention, MentionViolation(m, s)) ==> CheckEnabled(s, v)
    ensures forall v :: v in Part(s.antiCaps, CapsViolation(m, s)) ==> CheckEnabled(s, v)
    ensures forall v :: v in Part(s.antiLinks, LinkViolation(m, s)) ==> CheckEnabled(s, v)
    ensures forall v :: v in Part(s.antiBadWords, BadWordViolation(m, words)) ==> CheckEnabled(s, v)
    ensures forall v :: v in Part(s.antiRepeat, RepeatViolation(hist)) ==> CheckEnabled(s, v)
    ensures forall v :: v in Part(s.antiEmojiSpam, EmojiViolation(m)) ==> CheckEnabled(s, v)
    ensures forall v :: v in Part(s.antiInvites, InviteViolation(m)) ==> CheckEnabled(s, v)
  {
    var o := RepeatViolation(hist);
    forall v | v in Part(s.antiRepeat, o)
      ensures CheckEnabled(s, v)
    {
      assert v == Repeat;
    }
  }

  /** Only enabled checks contribute, each at most once: at most eight records,
      and each record comes from its own switched-on check. */
  lemma {:induction false} CollectedFromEnabledChecks(m: Message, s: Settings, words: seq<string>, spam: Option<Violation>,
                                   hist: seq<HistoryEntry>)
    requires spam.Some? ==> spam.value.Spam?
    ensures forall v :: v in Collected(m, s, words, spam, hist) ==> CheckEnabled(s, v)
  {
    ChecksProduceTheirKinds(m, s, words, hist);
  }

  /** Each switched-on check that fires is in the collected list. */
  lemma {:induction false} CollectedComplete(m: Message, s: Settings, words: seq<string>, spam: Option<Violation>,
                          hist: seq<HistoryEntry>)
    ensures s.antiSpam && spam.Some? ==> spam.value in Collected(m, s, words, spam, hist)
    ensures s.antiMention && MentionViolation(m, s).Some? ==> MentionViolation(m, s).value in Collected(m, s, words, spam, hist)
    ensures s.antiCaps && CapsViolation(m, s).Some? ==> CapsViolation(m, s).value in Collected(m, s, words, spam, hist)
    ensures s.antiLinks && LinkViolation(m, s).Some? ==> LinkViolation(m, s).value in Collected(m, s, words, spam, hist)
    ensures s.antiBadWords && BadWordViolation(m, words).Some? ==> BadWordViolation(m, words).value in Collected(m, s, words, spam, hist)
    ensures s.antiRepeat && RepeatViolation(hist).Some? ==> Repeat in Collected(m, s, words, spam, hist)
    ensures s.antiEmojiSpam && EmojiViolation(m).Some? ==> EmojiViolation(m).value in Collected(m, s, words, spam, hist)
    ensures s.antiInvites && InviteViolation(m).Some? ==> Invite in Collected(m, s, words, spam, hist)
  {
  }

  /** A repeat record can only come from the repeat check: it is collected
      exactly when that check is on and fires. */
  lemma {:induction false} CollectedRepeatSound(m: Message, s: Settings, words: seq<string>, spam: Option<Violation>,
                                                hist: seq<HistoryEntry>)
    requires spam.Some? ==> spam.value.Spam?
    ensures Repeat in Collected(m, s, words, spam, hist) <==> s.antiRepeat && RepeatViolation(hist) == Some(Repeat)
  {
    assert Repeat !in Part(s.antiSpam, spam);
    assert Repeat !in Part(s.antiMention, MentionViolation(m, s));
    assert Repeat !in Part(s.antiCaps, CapsViolation(m, s));
    assert Repeat !in Part(s.antiLinks, LinkViolation(m, s));
    assert Repeat !in Part(s.antiBadWords, BadWordViolation(m, words));
    assert Repeat !in Part(s.antiEmojiSpam, EmojiViolation(m));
    assert Repeat !in Part(s.antiInvites, InviteViolation(m));
  }

  // ---------------------------------------------------------------------
  // Severity (`get_violation_severity`)

  const SeverityWeights: map<string, int> :=
    map["spam" := 2, "mass_mention" := 3, "everyone_mention" := 4, "caps" := 1, "link" := 3,
        "bad_word" := 2, "repeat" := 2, "emoji_spam" := 1, "invite" := 4]

  /** `severity_weights.get(type, 1)` */
  function Weight(tag: string): (w: int)
    ensures 1 <= w <= 4
    ensures tag !in SeverityWeights ==> w == 1
  {
    if tag in SeverityWeights then SeverityWeights[tag] else 1
  }

  /** Every record the evaluators produce has an entry in the weight table,
      so the default weight of 1 is used only for foreign type tags. */
  lemma {:induction false} EveryTagWeighted(v: Violation)
    ensures TypeTag(v) in SeverityWeights
    ensures Weight(TypeTag(v)) == SeverityWeights[TypeTag(v)]
  {
  }

  function TotalSeverity(vs: seq<Violation>): (t: int)
    ensures |vs| <= t <= 4 * |vs|
  {
    if vs == [] then 0 else Weight(TypeTag(vs[0])) + TotalSeverity(vs[1..])
  }

  lemma {:induction false} TotalSeverityConcat(a: seq<Violation>, b: seq<Violation>)
    ensures TotalSeverity(a + b) == TotalSeverity(a) + TotalSeverity(b)
    decreases |a|
  {
    if a == [] {
      assert a + b == b;
    } else {
      assert (a + b)[1..] == a[1..] + b;
      TotalSeverityConcat(a[1..], b);
    }
  }

  datatype SeverityLevel = Low | Medium | High

  function Rank(l: SeverityLevel): nat
  {
    match l
    case Low => 0
    case Medium => 1
    case High => 2
  }

  function Severity(vs: seq<Violation>): (r: SeverityLevel)
    ensures r == High <==> TotalSeverity(vs) >= 5
    ensures r == Medium <==> 3 <= TotalSeverity(vs) < 5
    ensures r == Low <==> TotalSeverity(vs) < 3
  {
    var total := TotalSeverity(vs);
    if total >= 5 then High else if total >= 3 then Medium else Low
  }

  /** More violations never lower the severity. */
  lemma {:induction false} SeverityMonotone(a: seq<Violation>, b: seq<Violation>)
    ensures Rank(Severity(a)) <= Rank(Severity(a + b))
  {
    TotalSeverityConcat(a, b);
  }

  /** An invite or an everyone-mention together with any other record is high. */
  lemma {:induction false} SeverityHeavyPair(v: Violation, w: Violation)
    requires v == Invite || v == EveryoneMention
    ensures Severity([v, w]) == High && Severity([w, v]) == High
  {
    assert Weight(TypeTag(v)) == 4;
    assert [v, w][1..] == [w];
    assert [w][1..] == [];
    assert TotalSeverity([w]) == Weight(TypeTag(w));
    assert TotalSeverity([v, w]) == 4 + Weight(TypeTag(w));
    assert [w, v][1..] == [v];
    assert [v][1..] == [];
    assert TotalSeverity([v]) == 4;
    assert TotalSeverity([w, v]) == Weight(TypeTag(w)) + 4;
  }

  // ---------------------------------------------------------------------
  // Escalation (`handle_violation`)

  /** Enforcement side effects, emitted as tags. */
  datatype Action = DeleteMessage | SendWarning(count: int) | Timeout(minutes: nat) | KickMember

  const MuteAt := 3
  const KickAt := 5
  const MuteMinutes: nat := 30

  /** The actions for a warning count, in the order the source performs them. */
  function EscalationActions(count: int, a: ActionSwitches): (r: seq<Action>)
    ensures DeleteMessage in r <==> a.delete
    ensures SendWarning(count) in r <==> a.warn
    ensures Timeout(MuteMinutes) in r <==> count >= MuteAt && a.mute
    ensures KickMember in r <==> count >= KickAt && a.kick
    ensures forall x :: x in r ==> x == DeleteMessage || x == SendWarning(count) || x == Timeout(MuteMinutes) || x == KickMember
  {
    (if a.delete then [DeleteMessage] else []) +
    (if a.warn then [SendWarning(count)] else []) +
    (if count >= MuteAt && a.mute then [Timeout(MuteMinutes)] else []) +
    (if count >= KickAt && a.kick then [KickMember] else [])
  }

  /** The tiers are cumulative: a higher count keeps every punishment of a
      lower one, and a kick comes with a mute whenever muting is on. */
  lemma {:induction false} EscalationCumulative(c1: int, c2: int, a: ActionSwitches)
    requires c1 <= c2
    ensures forall x :: x in EscalationActions(c1, a) && !x.SendWarning? ==> x in EscalationActions(c2, a)
    ensures KickMember in EscalationActions(c1, a) && a.mute ==> Timeout(MuteMinutes) in EscalationActions(c1, a)
  {
  }

  /** Counts 1 and 2 only delete and warn. */
  lemma {:induction false} EscalationFirstTier(count: int, a: ActionSwitches)
    requires count < MuteAt
    ensures EscalationActions(count, a) ==
      (if a.delete then [DeleteMessage] else []) + (if a.warn then [SendWarning(count)] else [])
  {
  }

  // ---------------------------------------------------------------------
  // The bounded violation log (`log_violation`)

  datatype LogEntry = LogEntry(
    userId: string, userName: string, timestamp: int,
    violations: seq<string>, message: string, warningCount: int)

  const LogCapacity := 100
  const ExcerptLength := 200

  function Tags(vs: seq<Violation>): (r: seq<string>)
    ensures |r| == |vs| && forall i :: 0 <= i < |vs| ==> r[i] == TypeTag(vs[i])
  {
    if vs == [] then [] else [TypeTag(vs[0])] + Tags(vs[1..])
  }

  function MakeLogEntry(m: Message, vs: seq<Violation>, count: int, now: int): (e: LogEntry)
    ensures |e.message| <= ExcerptLength && e.message <= m.content
    ensures |m.content| <= ExcerptLength ==> e.message == m.content
    ensures |m.content| > ExcerptLength ==> e.message == m.content[..ExcerptLength]
    ensures e.warningCount == count && e.violations == Tags(vs)
    ensures e.userId == m.authorId && e.userName == m.authorName && e.timestamp == now
  {
    LogEntry(m.authorId, m.authorName, now, Tags(vs), Take(m.content, ExcerptLength), count)
  }

  /** `lst[-n:]` */
  function LastN<T>(s: seq<T>, n: nat): (r: seq<T>)
    ensures |s| <= n ==> r == s
    ensures |s| > n ==> |r| == n && r == s[|s| - n..]
  {
    if |s| > n then s[|s| - n..] else s
  }

  /** Append, then keep the newest hundred. */
  function AppendBounded(log: seq<LogEntry>, e: LogEntry): (r: seq<LogEntry>)
    ensures |log| < LogCapacity ==> r == log + [e]
    ensures |log| >= LogCapacity ==> |r| == LogCapacity && r == log[|log| - LogCapacity + 1..] + [e]
  {
    LastN(log + [e], LogCapacity)
  }

  /** The log after appending several entries one by one. */
  function AppendAll(log: seq<LogEntry>, es: seq<LogEntry>): seq<LogEntry>
    decreases |es|
  {
    if es == [] then log else AppendAll(AppendBounded(log, es[0]), es[1..])
  }

  /** The newest n of a long enough suffix are the newest n of the whole. */
  lemma {:induction false} LastNOfSuffix<T>(a: seq<T>, b: seq<T>, n: nat)
    requires n <= |b| <= |a| && b == a[|a| - |b|..]
    ensures LastN(b, n) == LastN(a, n)
  {
    var r, q := LastN(b, n), LastN(a, n);
    assert |r| == n == |q|;
    forall j | 0 <= j < n
      ensures r[j] == q[j]
    {
      assert r[j] == b[|b| - n + j];
      assert q[j] == a[|a| - n + j];
    }
  }

  lemma {:induction false} LastNOfLastN<T>(x: seq<T>, y: seq<T>, n: nat)
    ensures LastN(LastN(x, n) + y, n) == LastN(x + y, n)
  {
    if |x| > n {
      var t := x[|x| - n..];
      assert (x + y)[|x| - n..] == t + y;
      LastNOfSuffix(x + y, t + y, n);
    }
  }

  /** However many entries are appended, the log is the newest hundred of all
      of them, in their original order. */
  lemma {:induction false} AppendAllKeepsNewest(log: seq<LogEntry>, es: seq<LogEntry>)
    requires es != []
    ensures AppendAll(log, es) == LastN(log + es, LogCapacity)
    decreases |es|
  {
    if |es| == 1 {
      assert es[1..] == [];
      assert es == [es[0]];
    } else {
      AppendAllKeepsNewest(AppendBounded(log, es[0]), es[1..]);
      LastNOfLastN(log + [es[0]], es[1..], LogCapacity);
      assert log + [es[0]] + es[1..] == log + es;
    }
  }

  /** 150 entries appended to an empty log leave exactly the newest 100. */
  lemma {:induction false} AppendHundredFifty(es: seq<LogEntry>)
    requires |es| == 150
    ensures AppendAll([], es) == es[50..] && |AppendAll([], es)| == 100
  {
    AppendAllKeepsNewest([], es);
    assert [] + es == es;
    var r := LastN(es, LogCapacity);
    assert |r| == 100;
    assert r == es[50..];
  }
}
