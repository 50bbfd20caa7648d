/** The moderation commands of database.py that edit lists kept in the
    store: manual warnings (`варн`, `анварн`, `снятьварн`), the banned-word
    list (`добавитьслово`, `удалитьслово`), the mute-duration parser of
    `мут` and the amount check of `очистить`. */
module ModCommands {
  import opened Common
  import opened AutoModRules
  import Storage

  // ---------------------------------------------------------------------
  // Manual warnings

  /** One manual warning. The moderator is identified by id. */
  datatype Warning = Warning(id: int, moderator: string, reason: string, timestamp: int)

  /** One group's "warnings" document: user id to that user's warnings. */
  type WarningBook = map<string, seq<Warning>>

  const WarningsKey := "warnings"

  /** Warnings reach a one-hour timeout from the third on. */
  const WarnMuteAt := 3

  datatype WarnError = SelfTarget | NoWarnings | NotFound

  /** The new total and whether the one-hour timeout is issued. */
  datatype WarnOutcome = WarnOutcome(total: nat, timeout: bool)

  /** Ids run 1, 2, 3, ... in list order, as `варн` hands them out. */
  predicate Sequential(ws: seq<Warning>)
  {
    forall i :: 0 <= i < |ws| ==> ws[i].id == i + 1
  }

  /** The list after `варн`: a new warning at the end. Every earlier warning
      is kept, and on a list with sequential ids the new one carries the
      next id, so the ids stay sequential. */
  function Warned(ws: seq<Warning>, moderator: string, reason: string, now: int): (r: seq<Warning>)
    ensures |r| == |ws| + 1 && r[..|ws|] == ws && r[|ws|].id == |ws| + 1
    ensures Sequential(ws) ==> Sequential(r)
  {
    var r := ws + [Warning(|ws| + 1, moderator, reason, now)];
    assert r[..|ws|] == ws;
    assert forall i :: 0 <= i < |ws| ==> r[i] == ws[i];
    r
  }

  /** `анварн` drops the newest warning, so ids stay sequential. */
  lemma {:induction false} UnwarnSequential(ws: seq<Warning>)
    requires Sequential(ws) && ws != []
    ensures Sequential(ws[..|ws| - 1])
  {
    var r := ws[..|ws| - 1];
    forall i | 0 <= i < |r|
      ensures r[i].id == i + 1
    {
      assert r[i] == ws[i];
    }
  }

  /** The position of the first warning with the given id, searched from `k`. */
  function FindFrom(ws: seq<Warning>, id: int, k: nat): (r: Option<nat>)
    requires k <= |ws|
    ensures r.Some? ==> k <= r.value < |ws| && ws[r.value].id == id &&
                        forall j :: k <= j < r.value ==> ws[j].id != id
    ensures r.None? ==> forall j :: k <= j < |ws| ==> ws[j].id != id
    decreases |ws| - k
  {
    if k == |ws| then None
    else if ws[k].id == id then Some(k)
    else FindFrom(ws, id, k + 1)
  }

  /** `ws` with the ids from position `from` on rewritten to position + 1. */
  function Renumbered(ws: seq<Warning>, from: nat): (r: seq<Warning>)
    ensures |r| == |ws|
    ensures forall k :: 0 <= k < |ws| ==> r[k] == if k >= from then ws[k].(id := k + 1) else ws[k]
  {
    seq(|ws|, k requires 0 <= k < |ws| => if k >= from then ws[k].(id := k + 1) else ws[k])
  }

  /** `снятьварн`: the remaining list and the removed warning, or why not. */
  function RemovedById(ws: seq<Warning>, id: int): (r: Result<(seq<Warning>, Warning), WarnError>)
    ensures r == Err(NoWarnings) <==> ws == []
    ensures r == Err(NotFound) <==> ws != [] && forall k :: 0 <= k < |ws| ==> ws[k].id != id
    ensures r.Ok? ==> |r.value.0| == |ws| - 1 && r.value.1 in ws && r.value.1.id == id
  {
    if ws == [] then Err(NoWarnings)
    else
      match FindFrom(ws, id, 0)
      case None => Err(NotFound)
      case Some(i) => Ok((Renumbered(ws[..i] + ws[i + 1..], i), ws[i]))
  }

  /** On a list with sequential ids, removing id k succeeds exactly for
      1 <= k <= len; it removes the k-th warning, keeps the others in order
      with their reasons, and leaves the ids sequential. */
  lemma {:induction false} RemoveByIdSequential(ws: seq<Warning>, id: int)
    requires Sequential(ws)
    ensures RemovedById(ws, id).Ok? <==> 1 <= id <= |ws|
    ensures RemovedById(ws, id).Ok? ==>
      var (rest, removed) := RemovedById(ws, id).value;
      removed == ws[id - 1] && Sequential(rest) && |rest| == |ws| - 1 &&
      (forall k :: 0 <= k < id - 1 ==> rest[k] == ws[k]) &&
      (forall k :: id - 1 <= k < |rest| ==> rest[k] == ws[k + 1].(id := k + 1))
  {
    if ws != [] {
      var f := FindFrom(ws, id, 0);
      if 1 <= id <= |ws| {
        assert ws[id - 1].id == id;
        assert f.Some? && f.value == id - 1;
      } else {
        assert f.None?;
      }
    }
  }

  /** The search and renumbering loops of `снятьварн`, over a list value. */
  method RemoveById(ws: seq<Warning>, id: int) returns (r: Result<(seq<Warning>, Warning), WarnError>)
    ensures r == RemovedById(ws, id)
  {
    if ws == [] {
      return Err(NoWarnings);
    }
    var i := 0;
    while i < |ws|
      invariant 0 <= i <= |ws|
      invariant FindFrom(ws, id, 0) == FindFrom(ws, id, i)
    {
      if ws[i].id == id {
        var removed := ws[i];
        var rest := ws[..i] + ws[i + 1..];
        ghost var popped := rest;
        var j := i;
        while j < |rest|
          invariant i <= j <= |rest| == |popped|
          invariant forall k :: 0 <= k < |rest| ==>
            rest[k] == if i <= k < j then popped[k].(id := k + 1) else popped[k]
        {
          rest := rest[j := rest[j].(id := j + 1)];
          j := j + 1;
        }
        assert rest == Renumbered(popped, i);
        return Ok((rest, removed));
      }
      i := i + 1;
    }
    return Err(NotFound);
  }

  /** `варн`: a moderator cannot warn themself; otherwise the warning is
      appended to the target's list and the list stored back. */
  method Warn(st: Storage.DataStorage<WarningBook>, guildId: string, moderatorId: string, targetId: string,
              reason: string, now: int) returns (r: Result<WarnOutcome, WarnError>)
    modifies st
    ensures moderatorId == targetId ==> r == Err(SelfTarget) && st.data == old(st.data)
    ensures moderatorId != targetId ==>
      var book := Storage.Lookup(old(st.data), guildId, WarningsKey, map[]);
      var ws := Warned(Storage.Get(book, targetId, []), moderatorId, reason, now);
      st.data == Storage.Stored(old(st.data), guildId, WarningsKey, book[targetId := ws]) &&
      r == Ok(WarnOutcome(|ws|, |ws| >= WarnMuteAt))
  {
    if moderatorId == targetId {
      return Err(SelfTarget);
    }
    var book := st.GetGuildData(guildId, WarningsKey, map[]);
    ghost var read := book;
    if targetId !in book {
      book := book[targetId := []];
    }
    var ws := book[targetId] + [Warning(|book[targetId]| + 1, moderatorId, reason, now)];
    book := book[targetId := ws];
    assert book == read[targetId := ws];
    st.SetGuildData(guildId, WarningsKey, book);
    Storage.StoredAfterEnsureKey(old(st.data), guildId, WarningsKey, book);
    r := Ok(WarnOutcome(|ws|, |ws| >= WarnMuteAt));
  }

  /** `анварн`: drop the target's newest warning; an error when there is none. */
  method Unwarn(st: Storage.DataStorage<WarningBook>, guildId: string, targetId: string) returns (r: Result<nat, WarnError>)
    modifies st
    ensures
      var book := Storage.Lookup(old(st.data), guildId, WarningsKey, map[]);
      var ws := Storage.Get(book, targetId, []);
      (ws == [] ==> r == Err(NoWarnings) && st.data == Storage.EnsureKey(old(st.data), WarningsKey)) &&
      (ws != [] ==> r == Ok(|ws| - 1) &&
                    st.data == Storage.Stored(old(st.data), guildId, WarningsKey, book[targetId := ws[..|ws| - 1]]))
  {
    var book := st.GetGuildData(guildId, WarningsKey, map[]);
    var ws := Storage.Get(book, targetId, []);
    if ws == [] {
      return Err(NoWarnings);
    }
    ws := ws[..|ws| - 1];
    book := book[targetId := ws];
    st.SetGuildData(guildId, WarningsKey, book);
    Storage.StoredAfterEnsureKey(old(st.data), guildId, WarningsKey, book);
    r := Ok(|ws|);
  }

  /** `снятьварн`: remove the warning with the given id and renumber the
      rest; nothing is stored when the list is empty or the id is unknown. */
  method RemoveWarn(st: Storage.DataStorage<WarningBook>, guildId: string, targetId: string, id: int)
    returns (r: Result<Warning, WarnError>)
    modifies st
    ensures
      var book := Storage.Lookup(old(st.data), guildId, WarningsKey, map[]);
      var res := RemovedById(Storage.Get(book, targetId, []), id);
      (res.Err? ==> r == Err(res.error) && st.data == Storage.EnsureKey(old(st.data), WarningsKey)) &&
      (res.Ok? ==> r == Ok(res.value.1) &&
                   st.data == Storage.Stored(old(st.data), guildId, WarningsKey, book[targetId := res.value.0]))
  {
    var book := st.GetGuildData(guildId, WarningsKey, map[]);
    var ws := Storage.Get(book, targetId, []);
    var res := RemoveById(ws, id);
    if res.Err? {
      return Err(res.error);
    }
    book := book[targetId := res.value.0];
    st.SetGuildData(guildId, WarningsKey, book);
    Storage.StoredAfterEnsureKey(old(st.data), guildId, WarningsKey, book);
    r := Ok(res.value.1);
  }

  // ---------------------------------------------------------------------
  // The banned-word list

  datatype WordError = AlreadyListed | NotListed

  /** `list.remove(x)`: drop the first occurrence. */
  function RemoveFirst(s: seq<string>, x: string): (r: seq<string>)
    ensures x in s ==> |r| == |s| - 1 && multiset(r) == multiset(s) - multiset{x}
    ensures x !in s ==> r == s
  {
    if s == [] then []
    else
      assert s == [s[0]] + s[1..];
      if s[0] == x then s[1..] else [s[0]] + RemoveFirst(s[1..], x)
  }

  /** `r` is `s` without its element at `i`, the first copy of `x`. */
  predicate DroppedFirstAt(s: seq<string>, x: string, i: int, r: seq<string>)
  {
    0 <= i < |s| && s[i] == x && x !in s[..i] && r == s[..i] + s[i + 1..]
  }

  /** The copy removed is the first one, and the rest keeps its order. */
  lemma {:induction false} RemoveFirstAt(s: seq<string>, x: string)
    requires x in s
    ensures exists i :: DroppedFirstAt(s, x, i, RemoveFirst(s, x))
    decreases |s|
  {
    assert s == [s[0]] + s[1..];
    if s[0] == x {
      assert DroppedFirstAt(s, x, 0, RemoveFirst(s, x));
    } else {
      RemoveFirstAt(s[1..], x);
      var j :| DroppedFirstAt(s[1..], x, j, RemoveFirst(s[1..], x));
      DroppedFirstShift(s, x, j);
    }
  }

  lemma {:induction false} DroppedFirstShift(s: seq<string>, x: string, j: int)
    requires s != [] && s[0] != x && DroppedFirstAt(s[1..], x, j, RemoveFirst(s[1..], x))
    ensures DroppedFirstAt(s, x, j + 1, RemoveFirst(s, x))
  {
    var rest := RemoveFirst(s[1..], x);
    assert RemoveFirst(s, x) == [s[0]] + rest;
    assert s[..j + 1] == [s[0]] + s[1..][..j];
    assert s[j + 2..] == s[1..][j + 1..];
    assert [s[0]] + rest == ([s[0]] + s[1..][..j]) + s[1..][j + 1..];
  }

  /** `добавитьслово`: the group's document after adding the lower-cased
      word, or AlreadyListed when the lower-cased word is on the list. */
  function AddedWord(doc: map<string, seq<string>>, guildId: string, word: string): (r: Result<map<string, seq<string>>, WordError>)
    ensures r == Err(AlreadyListed) <==> Lower(word) in WordList(doc, guildId)
    ensures r.Ok? ==> WordList(r.value, guildId) == WordList(doc, guildId) + [Lower(word)] &&
                      forall g :: g != guildId ==> WordList(r.value, g) == WordList(doc, g)
  {
    var words := WordList(doc, guildId);
    if Lower(word) in words then Err(AlreadyListed) else Ok(doc[guildId := words + [Lower(word)]])
  }

  /** `удалитьслово`: the document after removing the first copy of the
      lower-cased word, or NotListed. */
  function RemovedWord(doc: map<string, seq<string>>, guildId: string, word: string): (r: Result<map<string, seq<string>>, WordError>)
    ensures r == Err(NotListed) <==> Lower(word) !in WordList(doc, guildId)
    ensures r.Ok? ==> WordList(r.value, guildId) == RemoveFirst(WordList(doc, guildId), Lower(word)) &&
                      forall g :: g != guildId ==> WordList(r.value, g) == WordList(doc, g)
  {
    if guildId !in doc || Lower(word) !in doc[guildId] then Err(NotListed)
    else Ok(doc[guildId := RemoveFirst(doc[guildId], Lower(word))])
  }

  /** Every entry is lower case and none is listed twice. */
  predicate WellFormedList(words: seq<string>)
  {
    (forall i :: 0 <= i < |words| ==> Lower(words[i]) == words[i]) &&
    (forall i, j :: 0 <= i < j < |words| ==> words[i] != words[j])
  }

  /** Adding keeps the list lower case and free of duplicates. */
  lemma {:induction false} AddKeepsWellFormed(doc: map<string, seq<string>>, guildId: string, word: string)
    requires WellFormedList(WordList(doc, guildId))
    requires AddedWord(doc, guildId, word).Ok?
    ensures WellFormedList(WordList(AddedWord(doc, guildId, word).value, guildId))
  {
    var words := WordList(doc, guildId);
    var r := words + [Lower(word)];
    LowerIdempotent(word);
    assert r[|words|] == Lower(word);
    forall i, j | 0 <= i < j < |r|
      ensures r[i] != r[j]
    {
      if j == |words| {
        assert r[i] == words[i];
      }
    }
  }

  /** Removing keeps the list lower case and free of duplicates: the
      remaining words are the old ones without the removed copy, in order. */
  lemma {:induction false} RemoveKeepsWellFormed(doc: map<string, seq<string>>, guildId: string, word: string)
    requires WellFormedList(WordList(doc, guildId))
    requires RemovedWord(doc, guildId, word).Ok?
    ensures WellFormedList(WordList(RemovedWord(doc, guildId, word).value, guildId))
  {
    var s := WordList(doc, guildId);
    var x := Lower(word);
    var r := RemoveFirst(s, x);
    RemoveFirstAt(s, x);
    var i :| DroppedFirstAt(s, x, i, r);
    DroppedKeepsWellFormed(s, i);
  }

  /** Dropping one position of a well-formed list leaves it well-formed. */
  lemma {:induction false} DroppedKeepsWellFormed(s: seq<string>, i: int)
    requires WellFormedList(s) && 0 <= i < |s|
    ensures WellFormedList(s[..i] + s[i + 1..])
  {
    var r := s[..i] + s[i + 1..];
    assert |r| == |s| - 1;
    forall k | 0 <= k < |r|
      ensures r[k] == s[if k < i then k else k + 1]
    {
    }
    forall a, b | 0 <= a < b < |r|
      ensures r[a] != r[b]
    {
      var a', b' := if a < i then a else a + 1, if b < i then b else b + 1;
      assert r[a] == s[a'] && r[b] == s[b'] && a' < b';
    }
  }

  /** An added word is caught by the bad-word check in any letter case,
      whatever surrounds it. */
  lemma {:induction false} AddedWordIsCaught(doc: map<string, seq<string>>, m: Message, word: string,
                                             pre: string, post: string)
    requires AddedWord(doc, m.guildId, word).Ok?
    requires m.content == pre + word + post
    ensures BadWordViolation(m, WordList(AddedWord(doc, m.guildId, word).value, m.guildId)).Some?
  {
    var words := WordList(AddedWord(doc, m.guildId, word).value, m.guildId);
    LowerConcat(pre + word, post);
    LowerConcat(pre, word);
    ContainsInfix(Lower(pre), Lower(word), Lower(post));
    assert words[|words| - 1] == Lower(word);
  }

  /** Removing a word just added restores the group's list. */
  lemma {:induction false} AddThenRemove(doc: map<string, seq<string>>, guildId: string, word: string)
    requires AddedWord(doc, guildId, word).Ok?
    ensures RemovedWord(AddedWord(doc, guildId, word).value, guildId, word).Ok?
    ensures WordList(RemovedWord(AddedWord(doc, guildId, word).value, guildId, word).value, guildId) == WordList(doc, guildId)
  {
    var words := WordList(doc, guildId);
    RemoveFirstAppended(words, Lower(word));
  }

  lemma {:induction false} RemoveFirstAppended(s: seq<string>, x: string)
    requires x !in s
    ensures RemoveFirst(s + [x], x) == s
    decreases |s|
  {
    if s == [] {
      assert [] + [x] == [x];
    } else {
      assert (s + [x])[1..] == s[1..] + [x];
      RemoveFirstAppended(s[1..], x);
    }
  }

  /** On a list without duplicates, removal leaves the word off the list. */
  lemma {:induction false} RemoveDropsWord(doc: map<string, seq<string>>, guildId: string, word: string)
    requires WellFormedList(WordList(doc, guildId))
    requires RemovedWord(doc, guildId, word).Ok?
    ensures Lower(word) !in WordList(RemovedWord(doc, guildId, word).value, guildId)
  {
    var words := WordList(doc, guildId);
    var x := Lower(word);
    var r := RemoveFirst(words, x);
    assert multiset(words)[x] == 1 by {
      CountOnce(words, x);
    }
    assert multiset(r)[x] == 0;
  }

  lemma {:induction false} CountOnce(s: seq<string>, x: string)
    requires x in s
    requires forall i, j :: 0 <= i < j < |s| ==> s[i] != s[j]
    ensures multiset(s)[x] == 1
    decreases |s|
  {
    assert s == [s[0]] + s[1..];
    if s[0] == x {
      assert x !in s[1..] by {
        forall k | 0 <= k < |s[1..]|
          ensures s[1..][k] != x
        {
          assert s[1..][k] == s[k + 1];
        }
      }
    } else {
      CountOnce(s[1..], x);
    }
  }

  // ---------------------------------------------------------------------
  // Mute duration (`мут`)

  /** Unit words and their length in seconds. */
  const TimeUnits: map<string, nat> :=
    map["s" := 1, "сек" := 1, "секунд" := 1,
        "m" := 60, "мин" := 60, "минут" := 60,
        "h" := 3600, "ч" := 3600, "час" := 3600,
        "d" := 86400, "д" := 86400, "день" := 86400]

  /** 28 days. */
  const MaxMuteSeconds := 2419200

  datatype DurationError = BadFormat | TooLong

  /** The digits of the argument, read as a number, times the unit its
      letters name (in any case); at most 28 days. */
  function ParseDuration(text: string): (r: Result<nat, DurationError>)
    ensures r == Err(BadFormat) <==> Digits(text) == [] || Lower(Letters(text)) !in TimeUnits
    ensures r.Ok? ==> r.value <= MaxMuteSeconds
    ensures r.Ok? ==> r.value == DecimalValue(Digits(text)) * TimeUnits[Lower(Letters(text))]
    ensures r == Err(TooLong) ==> DecimalValue(Digits(text)) * TimeUnits[Lower(Letters(text))] > MaxMuteSeconds
  {
    var num := Digits(text);
    var unit := Lower(Letters(text));
    if num == [] || unit !in TimeUnits then Err(BadFormat)
    else
      var seconds := DecimalValue(num) * TimeUnits[unit];
      if seconds > MaxMuteSeconds then Err(TooLong) else Ok(seconds)
  }

  lemma {:induction false} DigitsOfNumber(s: string)
    requires forall i :: 0 <= i < |s| ==> IsDigitChar(s[i])
    ensures Digits(s) == s && Letters(s) == []
    decreases |s|
  {
    if s != [] {
      DigitsOfNumber(s[1..]);
    }
  }

  /** A number followed by a lower-case unit word reads back as the number
      times the unit (for instance "10мин" is 600 seconds), or TooLong beyond
      28 days. The unit may also be written in capitals. */
  lemma {:induction false} ParseDurationRoundTrip(n: nat, unit: string, written: string)
    requires unit in TimeUnits && Lower(written) == unit
    requires forall i :: 0 <= i < |written| ==> IsAlphaChar(written[i])
    ensures n * TimeUnits[unit] <= MaxMuteSeconds ==> ParseDuration(DecimalString(n) + written) == Ok(n * TimeUnits[unit])
    ensures n * TimeUnits[unit] > MaxMuteSeconds ==> ParseDuration(DecimalString(n) + written) == Err(TooLong)
  {
    var num := DecimalString(n);
    DigitsConcat(num, written);
    DigitsOfNumber(num);
    LettersOfAlpha(written);
    DecimalRoundTrip(n);
    assert num + [] == num && [] + written == written;
  }

  lemma {:induction false} LettersOfAlpha(s: string)
    requires forall i :: 0 <= i < |s| ==> IsAlphaChar(s[i])
    ensures Letters(s) == s && Digits(s) == []
    decreases |s|
  {
    if s != [] {
      LettersOfAlpha(s[1..]);
    }
  }

  /** An argument without digits, or without letters for a unit, is refused. */
  lemma {:induction false} ParseDurationRejects(text: string)
    ensures Digits(text) == [] ==> ParseDuration(text) == Err(BadFormat)
    ensures Letters(text) == [] ==> ParseDuration(text) == Err(BadFormat)
  {
    assert Lower([]) == [];
  }

  // ---------------------------------------------------------------------
  // Purge (`очистить`)

  const MaxPurge := 100

  /** The `limit` handed to the purge: the amount plus the command message
      itself, for amounts 1 to 100; None otherwise. */
  function PurgeLimit(amount: int): (r: Option<nat>)
    ensures r.Some? <==> 1 <= amount <= MaxPurge
    ensures r.Some? ==> r.value == amount + 1 && 2 <= r.value <= MaxPurge + 1
  {
    if amount <= 0 || amount > MaxPurge then None else Some(amount + 1)
  }
}
