// Reading Home Assistant state strings and choosing which exports become Matter endpoints.
module OnOffMap {
  import opened Wrappers
  import opened Model

  // Unicode White_Space, the characters `trim` removes.
  predicate IsWhitespace(c: char) {
    var n := c as int;
    || 0x09 <= n <= 0x0D || n == 0x20 || n == 0x85 || n == 0xA0 || n == 0x1680
    || 0x2000 <= n <= 0x200A || n == 0x2028 || n == 0x2029 || n == 0x202F || n == 0x205F || n == 0x3000
  }

  function Trim(s: string): string {
    if s == "" then s
    else if IsWhitespace(s[0]) then Trim(s[1..])
    else if IsWhitespace(s[|s| - 1]) then Trim(s[..|s| - 1])
    else s
  }

  function ToAsciiLower(s: string): string {
    seq(|s|, i requires 0 <= i < |s| => if 'A' <= s[i] <= 'Z' then s[i] - 'A' + 'a' else s[i])
  }

  function Normalize(state: string): string {
    ToAsciiLower(Trim(state))
  }

  function HaStateIsOn(state: string): Option<bool> {
    var s := Normalize(state);
    if s in ["on", "true", "1", "open", "home", "locked"] then Some(true)
    else if s in ["off", "false", "0", "closed", "not_home", "unlocked"] then Some(false)
    else None
  }

  predicate IsOnOffCapable(t: DeviceType) {
    t.Light? || t.OnOffSwitch? || t.OnOffPlug? || t.Outlet?
  }

  // Every first-ship device type is bridged; only `enabled` decides.
  predicate IsMatterBridgedExport(e: Export) {
    e.enabled && (IsOnOffCapable(e.type_) || e.type_.Contact? || e.type_.Motion? || e.type_.Cover? || e.type_.Garage?)
  }

  // The first state of the primary entity; linked entities never drive an endpoint.
  function PrimaryState(e: Export, states: seq<HaStateValue>): Option<HaStateValue> {
    if states == [] then None
    else if states[0].entityId == e.primaryEntityId then Some(states[0])
    else PrimaryState(e, states[1..])
  }

  function PrimaryHaOn(e: Export, states: seq<HaStateValue>): Option<bool> {
    match PrimaryState(e, states)
    case None => None
    case Some(st) => HaStateIsOn(st.state)
  }

  function OnOffFromStates(e: Export, states: seq<HaStateValue>): Option<bool> {
    if !IsOnOffCapable(e.type_) then None else PrimaryHaOn(e, states)
  }

  function OnOffRequest(exportId: Uuid, on: bool): CommandRequest {
    CommandRequest(exportId, OnOffCommand, Some(on), None, None)
  }

  // ---------- What a state string says ----------

  // Code points with the Unicode White_Space property.
  const WHITE_SPACE: seq<int> := [
    0x09, 0x0A, 0x0B, 0x0C, 0x0D, 0x20, 0x85, 0xA0, 0x1680, 0x2000, 0x2001, 0x2002, 0x2003, 0x2004, 0x2005, 0x2006,
    0x2007, 0x2008, 0x2009, 0x200A, 0x2028, 0x2029, 0x202F, 0x205F, 0x3000]

  ghost predicate Blank(c: char) {
    c as int in WHITE_SPACE
  }

  // Only white space before `from` and after `to`.
  ghost predicate Padded(s: string, from: nat, to: nat) {
    from <= to <= |s| && (forall i :: 0 <= i < from ==> Blank(s[i])) && forall i :: to <= i < |s| ==> Blank(s[i])
  }

  // The same letter, or its ASCII capital.
  predicate SameLetter(c: char, lower: char) {
    c == lower || ('a' <= lower <= 'z' && c as int + 32 == lower as int)
  }

  // The word with white space around it and some of its letters capitalised.
  ghost predicate SpellsAt(state: string, word: string, from: nat, to: nat) {
    && Padded(state, from, to) && to - from == |word|
    && forall i :: 0 <= i < |word| ==> SameLetter(state[from + i], word[i])
  }

  ghost predicate Spells(state: string, word: string) {
    exists from: nat, to: nat :: SpellsAt(state, word, from, to)
  }

  // A lower-case word with no white space in it.
  ghost predicate Plain(word: string) {
    word != "" && forall i :: 0 <= i < |word| ==> !IsWhitespace(word[i]) && !('A' <= word[i] <= 'Z')
  }

  lemma WhitespaceIff(c: char)
    ensures IsWhitespace(c) <==> Blank(c)
  {
    var n := c as int;
    assert 0x09 == WHITE_SPACE[0] && 0x0D == WHITE_SPACE[4] && 0x2000 == WHITE_SPACE[9] && 0x200A == WHITE_SPACE[19];
    if IsWhitespace(c) {
      if 0x09 <= n <= 0x0D {
        assert n == WHITE_SPACE[n - 0x09];
      } else if 0x2000 <= n <= 0x200A {
        assert n == WHITE_SPACE[n - 0x2000 + 9];
      } else if n <= 0xA0 {
        assert n == WHITE_SPACE[5] || n == WHITE_SPACE[6] || n == WHITE_SPACE[7];
      } else {
        assert n == WHITE_SPACE[8] || n == WHITE_SPACE[20] || n == WHITE_SPACE[21] || n == WHITE_SPACE[22]
          || n == WHITE_SPACE[23] || n == WHITE_SPACE[24];
      }
    }
  }

  // Trimming takes white space off both ends and nothing else.
  lemma {:induction false} TrimTakesBlanks(s: string) returns (from: nat, to: nat)
    ensures Padded(s, from, to) && Trim(s) == s[from..to]
    ensures from < to ==> !Blank(s[from]) && !Blank(s[to - 1])
    decreases |s|
  {
    hide IsWhitespace, Blank;
    from, to := 0, |s|;
    if s != "" {
      var n := |s| - 1;
      WhitespaceIff(s[0]);
      WhitespaceIff(s[n]);
      if Blank(s[0]) {
        var rest := s[1..];
        from, to := TrimTakesBlanks(rest);
        assert rest[from..to] == s[from + 1..to + 1];
        from, to := from + 1, to + 1;
        assert forall i :: 0 < i <= n ==> s[i] == rest[i - 1];
      } else if Blank(s[n]) {
        var rest := s[..n];
        from, to := TrimTakesBlanks(rest);
        assert rest[from..to] == s[from..to];
        assert forall i :: 0 <= i < n ==> s[i] == rest[i];
      }
    }
  }

  // Normalizing yields a word exactly when the string spells it, whatever the case and padding.
  lemma NormalizeIff(state: string, word: string)
    requires Plain(word)
    ensures Normalize(state) == word <==> Spells(state, word)
  {
    hide IsWhitespace, Blank;
    var from, to := TrimTakesBlanks(state);
    var core := Trim(state);
    if Normalize(state) == word {
      forall i | 0 <= i < |word|
        ensures SameLetter(state[from + i], word[i])
      {
        assert Normalize(state)[i] == word[i] && core[i] == state[from + i];
      }
      assert SpellsAt(state, word, from, to);
    }
    if Spells(state, word) {
      var f: nat, t: nat :| SpellsAt(state, word, f, t);
      SameCore(state, word, f, t, from, to);
      assert forall i :: 0 <= i < |word| ==> SameLetter(core[i], word[i]) && core[i] == state[f + i];
      assert forall i :: 0 <= i < |word| ==> ToAsciiLower(core)[i] == word[i];
      assert ToAsciiLower(core) == word;
    }
  }

  lemma SameCore(state: string, word: string, f: nat, t: nat, from: nat, to: nat)
    requires Plain(word) && SpellsAt(state, word, f, t)
    requires Padded(state, from, to) && (from < to ==> !Blank(state[from]) && !Blank(state[to - 1]))
    ensures f == from && t == to
  {
    hide SameLetter, Blank;
    LettersNotBlank(state, word, f, t, 0);
    LettersNotBlank(state, word, f, t, |word| - 1);
  }

  lemma LettersNotBlank(state: string, word: string, f: nat, t: nat, i: nat)
    requires Plain(word) && SpellsAt(state, word, f, t) && i < |word|
    ensures !Blank(state[f + i])
  {
    WhitespaceIff(state[f + i]);
    WhitespaceIff(word[i]);
    assert SameLetter(state[f + i], word[i]);
  }

  ghost predicate SaysOn(state: string) {
    || Spells(state, "on") || Spells(state, "true") || Spells(state, "1")
    || Spells(state, "open") || Spells(state, "home") || Spells(state, "locked")
  }

  ghost predicate SaysOff(state: string) {
    || Spells(state, "off") || Spells(state, "false") || Spells(state, "0")
    || Spells(state, "closed") || Spells(state, "not_home") || Spells(state, "unlocked")
  }

  lemma OnIff(state: string)
    ensures HaStateIsOn(state) == Some(true) <==> SaysOn(state)
  {
    hide Normalize, Spells;
    NormalizeIff(state, "on");
    NormalizeIff(state, "true");
    NormalizeIff(state, "1");
    NormalizeIff(state, "open");
    NormalizeIff(state, "home");
    NormalizeIff(state, "locked");
  }

  lemma OffIff(state: string)
    ensures HaStateIsOn(state) == Some(false) <==> SaysOff(state)
  {
    hide Normalize, Spells;
    NormalizeIff(state, "off");
    NormalizeIff(state, "false");
    NormalizeIff(state, "0");
    NormalizeIff(state, "closed");
    NormalizeIff(state, "not_home");
    NormalizeIff(state, "unlocked");
  }

  // Exactly which strings mean on and off, whatever their case and padding.
  lemma HaStateIsOnIff(state: string)
    ensures HaStateIsOn(state) == Some(true) <==> SaysOn(state)
    ensures HaStateIsOn(state) == Some(false) <==> SaysOff(state)
  {
    hide HaStateIsOn, SaysOn, SaysOff;
    OnIff(state);
    OffIff(state);
  }

  // ---------- Which state counts ----------

  predicate IsFirstPrimary(e: Export, states: seq<HaStateValue>, i: nat) {
    && i < |states| && states[i].entityId == e.primaryEntityId
    && forall j :: 0 <= j < i ==> states[j].entityId != e.primaryEntityId
  }

  // The first state of the primary entity, and none exactly when it has no state.
  lemma {:induction false} PrimaryStateIff(e: Export, states: seq<HaStateValue>)
    ensures PrimaryState(e, states).None? <==>
      forall i :: 0 <= i < |states| ==> states[i].entityId != e.primaryEntityId
    ensures forall i: nat :: IsFirstPrimary(e, states, i) ==> PrimaryState(e, states) == Some(states[i])
  {
    if states != [] && states[0].entityId != e.primaryEntityId {
      var rest := states[1..];
      PrimaryStateIff(e, rest);
      assert forall i :: 0 <= i < |rest| ==> rest[i] == states[i + 1];
      assert forall i :: 0 < i < |states| ==> states[i] == rest[i - 1];
      forall i: nat | IsFirstPrimary(e, states, i)
        ensures PrimaryState(e, states) == Some(states[i])
      {
        assert IsFirstPrimary(e, rest, i - 1);
      }
    }
  }

  // States of other entities can be inserted or removed anywhere without effect.
  lemma {:induction false} LinkedStatesIgnored(e: Export, before: seq<HaStateValue>, other: HaStateValue,
    after: seq<HaStateValue>)
    requires other.entityId != e.primaryEntityId
    ensures PrimaryState(e, before + [other] + after) == PrimaryState(e, before + after)
  {
    var s := before + [other] + after;
    if before == [] {
      assert s[1..] == after && before + after == after;
    } else {
      LinkedStatesIgnored(e, before[1..], other, after);
      assert s[1..] == before[1..] + [other] + after;
      assert (before + after)[1..] == before[1..] + after;
    }
  }
}
