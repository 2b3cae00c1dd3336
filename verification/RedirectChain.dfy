/**
 Following redirects: a chain hands out one follow decision at a time, refuses a URL whose key
 it has already visited, a step from https to http, and a sixth hop, and is over for good after
 any failure.

 The URL normalizer is a function that may reject. `resolved` is the text handed to it for a
 Location header, or None where resolving or decoding that header throws.
 */
module RedirectChain {
  import opened Common

  // ----- The key that loops are found by -----

  predicate IsHex(c: char) {
    '0' <= c <= '9' || 'a' <= c <= 'f' || 'A' <= c <= 'F'
  }

  function HexValue(c: char): nat
    requires IsHex(c)
    ensures HexValue(c) < 16
  {
    if c <= '9' then c as int - '0' as int else if c <= 'F' then c as int - 'A' as int + 10 else c as int - 'a' as int + 10
  }

  function UpperHex(c: char): (d: char)
    requires IsHex(c)
    ensures IsHex(d) && HexValue(d) == HexValue(c)
  {
    if 'a' <= c then c - 'a' + 'A' else c
  }

  predicate Unreserved(c: char) {
    'a' <= c <= 'z' || 'A' <= c <= 'Z' || '0' <= c <= '9' || c in "._~-"
  }

  predicate EscapeAt(s: string) {
    |s| >= 3 && s[0] == '%' && IsHex(s[1]) && IsHex(s[2])
  }

  function Octet(s: string): char
    requires EscapeAt(s)
  {
    (16 * HexValue(s[1]) + HexValue(s[2])) as char
  }

  function LoopKey(s: string): string {
    if s == [] then []
    else if EscapeAt(s) then
      (if Unreserved(Octet(s)) then [Octet(s)] else ['%', UpperHex(s[1]), UpperHex(s[2])]) + LoopKey(s[3..])
    else [s[0]] + LoopKey(s[1..])
  }

  // Every '%' begins an escape.
  predicate WellFormed(s: string) {
    s == [] || if s[0] == '%' then EscapeAt(s) && WellFormed(s[3..]) else WellFormed(s[1..])
  }

  // What a URL text says, whatever the case of its escapes and whether it escapes unreserved characters.
  datatype Token = Plain(c: char) | Escaped(octet: char)

  function Tokens(s: string): seq<Token> {
    if s == [] then []
    else if EscapeAt(s) then [if Unreserved(Octet(s)) then Plain(Octet(s)) else Escaped(Octet(s))] + Tokens(s[3..])
    else [Plain(s[0])] + Tokens(s[1..])
  }

  lemma {:induction false} KeyKeepsTokens(s: string)
    requires WellFormed(s)
    ensures WellFormed(LoopKey(s)) && Tokens(LoopKey(s)) == Tokens(s)
  {
    if s != [] {
      var k := LoopKey(s);
      if EscapeAt(s) {
        KeyKeepsTokens(s[3..]);
        if Unreserved(Octet(s)) {
          assert k[1..] == LoopKey(s[3..]);
        } else {
          assert k[3..] == LoopKey(s[3..]);
          assert Octet(k) == Octet(s);
        }
      } else {
        KeyKeepsTokens(s[1..]);
        assert k[1..] == LoopKey(s[1..]);
      }
    }
  }

  lemma {:induction false} KeyOfTokens(s: string, t: string)
    requires Tokens(s) == Tokens(t)
    ensures LoopKey(s) == LoopKey(t)
    decreases |s|
  {
    if s != [] && t != [] {
      var n, m := if EscapeAt(s) then 3 else 1, if EscapeAt(t) then 3 else 1;
      assert Tokens(s)[1..] == Tokens(s[n..]) && Tokens(t)[1..] == Tokens(t[m..]);
      assert Tokens(s)[0] == Tokens(t)[0];
      KeyOfTokens(s[n..], t[m..]);
      if Tokens(s)[0].Escaped? {
        SameOctetSameHex(s, t);
      }
    }
  }

  lemma SameValueSameHex(c: char, d: char)
    requires IsHex(c) && IsHex(d) && HexValue(c) == HexValue(d)
    ensures UpperHex(c) == UpperHex(d)
  {
  }

  lemma SplitSixteen(a: nat, b: nat, c: nat, d: nat)
    requires b < 16 && d < 16 && 16 * a + b == 16 * c + d
    ensures a == c && b == d
  {
  }

  lemma SameOctetSameHex(s: string, t: string)
    requires EscapeAt(s) && EscapeAt(t) && Octet(s) == Octet(t)
    ensures UpperHex(s[1]) == UpperHex(t[1]) && UpperHex(s[2]) == UpperHex(t[2])
  {
    SplitSixteen(HexValue(s[1]), HexValue(s[2]), HexValue(t[1]), HexValue(t[2]));
    SameValueSameHex(s[1], t[1]);
    SameValueSameHex(s[2], t[2]);
  }

  /** Two well-formed texts have one key exactly when they say the same. */
  lemma KeyIsExact(s: string, t: string)
    requires WellFormed(s) && WellFormed(t)
    ensures LoopKey(s) == LoopKey(t) <==> Tokens(s) == Tokens(t)
  {
    KeyKeepsTokens(s);
    KeyKeepsTokens(t);
    if Tokens(s) == Tokens(t) {
      KeyOfTokens(s, t);
    }
  }

  /** On well-formed texts the key is its own key. */
  lemma KeyIsIdempotent(s: string)
    requires WellFormed(s)
    ensures LoopKey(LoopKey(s)) == LoopKey(s)
  {
    KeyKeepsTokens(s);
    KeyOfTokens(LoopKey(s), s);
  }

  /** A stray '%' may break both: a decoded digit completes an escape. */
  lemma StrayPercentBreaksKey()
    ensures LoopKey("%%341") == "%41" && LoopKey("%41") == "A"
    ensures LoopKey("%%325") == LoopKey("%25") && Tokens("%%325") != Tokens("%25")
  {
    assert LoopKey("%%341") == "%" + LoopKey("%341");
    assert "%341"[3..] == "1" && LoopKey("%341") == "4" + LoopKey("1");
    assert LoopKey("1") == "1" + LoopKey([]);
    assert LoopKey("%%325") == "%" + LoopKey("%325");
    assert "%325"[3..] == "5" && LoopKey("%325") == "2" + LoopKey("5");
    assert LoopKey("5") == "5" + LoopKey([]);
    assert Tokens("%%325")[0] == Plain('%') && Tokens("%25")[0] == Escaped('%');
    assert "%41"[3..] == [] && LoopKey("%41") == "A" + LoopKey([]);
    assert "%25"[3..] == [] && LoopKey("%25") == "%25" + LoopKey([]);
  }

  // ----- Keys of arbitrary texts -----

  // An escape as a key writes it.
  predicate Canonical(s: string) {
    EscapeAt(s) && !Unreserved(Octet(s)) && s[1] == UpperHex(s[1]) && s[2] == UpperHex(s[2])
  }

  // No character outside an escape completes one, in the key, that the key would rewrite.
  predicate Settled(s: string) {
    s == [] ||
    if EscapeAt(s) then Settled(s[3..])
    else
      var k := [s[0]] + LoopKey(s[1..]);
      (EscapeAt(k) ==> Canonical(k)) && Settled(s[1..])
  }

  // No character outside an escape completes one that the key would keep.
  predicate Clear(s: string) {
    s == [] || if EscapeAt(s) then Clear(s[3..]) else !Canonical([s[0]] + LoopKey(s[1..])) && Clear(s[1..])
  }

  lemma KeyPastEscape(k: string)
    requires Canonical(k)
    ensures LoopKey(k) == k[..3] + LoopKey(k[3..])
    ensures LoopKey(k[1..]) == k[1..3] + LoopKey(k[3..])
  {
    var r := k[1..];
    assert r[1..] == k[2..] && k[2..][1..] == k[3..];
    assert !EscapeAt(r) && !EscapeAt(k[2..]);
    assert LoopKey(r) == [k[1]] + LoopKey(k[2..]);
    assert LoopKey(k[2..]) == [k[2]] + LoopKey(k[3..]);
    assert LoopKey(k) == ['%', k[1], k[2]] + LoopKey(k[3..]);
  }

  lemma KeyChanges(k: string)
    requires EscapeAt(k) && !Canonical(k)
    ensures LoopKey(k) != k
  {
    if Unreserved(Octet(k)) {
      assert LoopKey(k)[0] == Octet(k);
    } else {
      assert LoopKey(k)[1] == UpperHex(k[1]) && LoopKey(k)[2] == UpperHex(k[2]);
    }
  }

  lemma SameTail(head: string, a: string, b: string)
    ensures head + a == head + b <==> a == b
  {
    if head + a == head + b {
      assert a == (head + a)[|head|..] && b == (head + b)[|head|..];
    }
  }

  lemma UpperIsCanonical(s: string)
    requires EscapeAt(s) && !Unreserved(Octet(s))
    ensures Canonical(['%', UpperHex(s[1]), UpperHex(s[2])] + LoopKey(s[3..]))
    ensures Octet(['%', UpperHex(s[1]), UpperHex(s[2])] + LoopKey(s[3..])) == Octet(s)
  {
  }

  // When a text that begins with a character on its own, or with an escape, is its own key.
  lemma PlainStep(c: char, rest: string)
    ensures var k := [c] + rest; LoopKey(k) == k <==> (EscapeAt(k) ==> Canonical(k)) && LoopKey(rest) == rest
  {
    var k := [c] + rest;
    assert k[1..] == rest;
    if !EscapeAt(k) {
      SameTail([c], LoopKey(rest), rest);
    } else if Canonical(k) {
      KeyPastEscape(k);
      assert rest == k[1..3] + k[3..] && k == k[..3] + k[3..];
      SameTail(k[1..3], LoopKey(k[3..]), k[3..]);
      SameTail(k[..3], LoopKey(k[3..]), k[3..]);
    } else {
      KeyChanges(k);
    }
  }

  lemma EscapeStep(s: string)
    requires EscapeAt(s)
    ensures var rest := LoopKey(s[3..]); LoopKey(LoopKey(s)) == LoopKey(s) <==> LoopKey(rest) == rest
  {
    var k, rest := LoopKey(s), LoopKey(s[3..]);
    if Unreserved(Octet(s)) {
      assert k == [Octet(s)] + rest && k[1..] == rest && !EscapeAt(k);
      SameTail([Octet(s)], LoopKey(rest), rest);
    } else {
      UpperIsCanonical(s);
      KeyPastEscape(k);
      assert k[3..] == rest && k == k[..3] + rest;
      SameTail(k[..3], LoopKey(rest), rest);
    }
  }

  /** On any text, well formed or not, the key is its own key if and only if no character outside
      an escape completes, in the key, an escape that is unreserved or has a lower-case digit. */
  lemma {:induction false} IdempotentExactly(s: string)
    ensures LoopKey(LoopKey(s)) == LoopKey(s) <==> Settled(s)
  {
    if s != [] {
      if EscapeAt(s) {
        IdempotentExactly(s[3..]);
        EscapeStep(s);
      } else {
        IdempotentExactly(s[1..]);
        PlainStep(s[0], LoopKey(s[1..]));
      }
    }
  }

  // A key read back, every canonical escape as an escape.
  function Reading(k: string): seq<Token> {
    if k == [] then []
    else if Canonical(k) then [Escaped(Octet(k))] + Reading(k[3..])
    else [Plain(k[0])] + Reading(k[1..])
  }

  lemma {:induction false} ReadingExactly(s: string)
    ensures Reading(LoopKey(s)) == Tokens(s) <==> Clear(s)
  {
    if s != [] {
      var k := LoopKey(s);
      if EscapeAt(s) {
        ReadingExactly(s[3..]);
        var rest := LoopKey(s[3..]);
        assert Tokens(s)[1..] == Tokens(s[3..]);
        if Unreserved(Octet(s)) {
          assert k[1..] == rest && Reading(k) == [Plain(Octet(s))] + Reading(rest);
          assert Reading(k)[1..] == Reading(rest);
        } else {
          UpperIsCanonical(s);
          assert k[3..] == rest && Reading(k) == [Escaped(Octet(s))] + Reading(rest);
          assert Reading(k)[1..] == Reading(rest);
        }
      } else {
        ReadingExactly(s[1..]);
        var rest := LoopKey(s[1..]);
        assert k == [s[0]] + rest && k[1..] == rest;
        assert Tokens(s)[0] == Plain(s[0]) && Tokens(s)[1..] == Tokens(s[1..]);
        if Canonical(k) {
          assert Reading(k)[0].Escaped?;
        } else {
          assert Reading(k)[1..] == Reading(rest);
        }
      }
    }
  }

  function HexDigit(d: nat): (c: char)
    requires d < 16
    ensures IsHex(c) && HexValue(c) == d && UpperHex(c) == c
  {
    if d < 10 then '0' + d as char else 'A' + (d - 10) as char
  }

  function Escape(c: char): (e: string)
    requires c < '\U{100}'
    ensures |e| == 3 && EscapeAt(e) && Octet(e) == c && e[1] == UpperHex(e[1]) && e[2] == UpperHex(e[2])
  {
    ['%', HexDigit(c as nat / 16), HexDigit(c as nat % 16)]
  }

  // What a key can hold: octets that it leaves escaped.
  predicate Proper(ts: seq<Token>) {
    forall i :: 0 <= i < |ts| && ts[i].Escaped? ==> ts[i].octet < '\U{100}' && !Unreserved(ts[i].octet)
  }

  function Rendered(ts: seq<Token>): string
    requires Proper(ts)
  {
    if ts == [] then []
    else (if ts[0].Plain? then [ts[0].c] else Escape(ts[0].octet)) + Rendered(ts[1..])
  }

  // A text that says just this: whatever may be escaped is.
  function Spelled(ts: seq<Token>): string
    requires Proper(ts)
  {
    if ts == [] then []
    else
      (if ts[0].Escaped? then Escape(ts[0].octet) else if Unreserved(ts[0].c) then Escape(ts[0].c) else [ts[0].c])
      + Spelled(ts[1..])
  }

  lemma EscapeThen(c: char, rest: string)
    requires c < '\U{100}'
    ensures EscapeAt(Escape(c) + rest) && Octet(Escape(c) + rest) == c && (Escape(c) + rest)[3..] == rest
    ensures LoopKey(Escape(c) + rest) == (if Unreserved(c) then [c] else Escape(c)) + LoopKey(rest)
    ensures Tokens(Escape(c) + rest) == [if Unreserved(c) then Plain(c) else Escaped(c)] + Tokens(rest)
  {
    var s := Escape(c) + rest;
    assert s[0] == '%' && s[1] == Escape(c)[1] && s[2] == Escape(c)[2] && s[3..] == rest;
  }

  lemma {:induction false} SpelledSays(ts: seq<Token>)
    requires Proper(ts)
    ensures Tokens(Spelled(ts)) == ts && LoopKey(Spelled(ts)) == Rendered(ts)
    ensures Spelled(ts) != [] ==> Spelled(ts)[0] == '%' || !Unreserved(Spelled(ts)[0])
  {
    if ts != [] {
      SpelledSays(ts[1..]);
      var rest := Spelled(ts[1..]);
      assert ts == [ts[0]] + ts[1..];
      if ts[0].Escaped? {
        EscapeThen(ts[0].octet, rest);
      } else if Unreserved(ts[0].c) {
        EscapeThen(ts[0].c, rest);
      } else {
        var s := [ts[0].c] + rest;
        assert s[1..] == rest && !EscapeAt(s);
      }
    }
  }

  lemma {:induction false} ReadingRenders(k: string)
    ensures Proper(Reading(k)) && Rendered(Reading(k)) == k
  {
    if k != [] {
      var n := if Canonical(k) then 3 else 1;
      ReadingRenders(k[n..]);
      assert Reading(k)[1..] == Reading(k[n..]);
      if Canonical(k) {
        SameOctetSameHex(Escape(Octet(k)), k);
        assert Escape(Octet(k)) == k[..3];
      }
      assert k == k[..n] + k[n..];
    }
  }

  /** Clear texts have one key exactly when they say the same, and no larger set of texts will do:
      a text that is not clear shares its key with a clear one that says something else. */
  lemma KeySaysAllExactly(s: string)
    ensures Clear(s) <==> forall t :: Clear(t) && LoopKey(t) == LoopKey(s) ==> Tokens(t) == Tokens(s)
  {
    ReadingExactly(s);
    if Clear(s) {
      forall t | Clear(t) && LoopKey(t) == LoopKey(s)
        ensures Tokens(t) == Tokens(s)
      {
        ReadingExactly(t);
      }
    } else {
      var ts := Reading(LoopKey(s));
      ReadingRenders(LoopKey(s));
      SpelledSays(ts);
      ReadingExactly(Spelled(ts));
    }
  }

  lemma {:induction false} WellFormedIsClear(s: string)
    requires WellFormed(s)
    ensures Clear(s) && Settled(s)
  {
    if s != [] {
      WellFormedIsClear(s[if EscapeAt(s) then 3 else 1..]);
    }
  }

  // ----- The chain -----

  datatype Url = Url(text: string, https: bool)

  type Normalizer = string -> Option<Url>

  datatype Decision = Return(hop: nat) | Follow(hop: nat, url: string)

  datatype State = State(current: Url, visited: set<string>, hop: nat, closed: bool, pending: Option<Decision>, eligible: bool)

  const MAX_HOPS := 5

  // An escaped dot, slash or backslash.
  predicate PathEscape(s: string) {
    EscapeAt(s) && Octet(s) in "./\\"
  }

  predicate SafeLocation(s: string) {
    && 1 <= |s| <= 4096 && (forall i :: 0 <= i < |s| ==> !IsSpace(s[i]) && s[i] != '\\' && s[i] != '#')
    && (forall i :: 0 <= i < |s| ==> !PathEscape(s[i..]))
  }

  predicate IsMethod(m: string) {
    1 <= |m| <= 32 && forall i :: 0 <= i < |m| ==> 'A' <= m[i] <= 'Z'
  }

  // `url` is None when it does not normalize or does not decode.
  function Create(url: Option<Url>, verb: string, hasBody: bool, safeRead: bool): Option<State> {
    if url.None? || !IsMethod(verb) then None
    else Some(State(url.value, {LoopKey(url.value.text)}, 0, false, None, safeRead && !hasBody && verb in {"GET", "HEAD"}))
  }

  function Failed(s: State): State {
    s.(closed := true, pending := None)
  }

  function Inspect(norm: Normalizer, s: State, status: int, location: Option<string>, resolved: Option<string>): (State, Option<Decision>) {
    if s.closed || s.pending.Some? || status < 100 || status > 599 then (Failed(s), None)
    else if !s.eligible || status !in {301, 302, 303, 307, 308} then (s.(closed := true), Some(Return(s.hop)))
    else if s.hop >= MAX_HOPS || location.None? || !SafeLocation(location.value) || resolved.None? then (Failed(s), None)
    else
      var target := norm(resolved.value);
      if target.None? || (s.current.https && !target.value.https) || LoopKey(target.value.text) in s.visited then (Failed(s), None)
      else
        var d := Follow(s.hop + 1, target.value.text);
        (s.(pending := Some(d)), Some(d))
  }

  // `presented` tells that the caller hands back the very decision that is pending.
  function Advance(norm: Normalizer, s: State, presented: bool): (State, bool) {
    if s.closed || s.pending.None? || !presented || s.pending.value.Return? then (Failed(s), false)
    else
      var next := norm(s.pending.value.url);
      if next.None? then (Failed(s), false)
      else
        (s.(current := next.value, visited := s.visited + {LoopKey(next.value.text)}, hop := s.pending.value.hop, pending := None),
         true)
  }

  datatype Event =
    | DoInspect(status: int, location: Option<string>, resolved: Option<string>)
    | DoAdvance(presented: bool)
    | DoClose

  function Apply(norm: Normalizer, s: State, e: Event): State {
    match e
    case DoInspect(status, location, resolved) => Inspect(norm, s, status, location, resolved).0
    case DoAdvance(presented) => Advance(norm, s, presented).0
    case DoClose => Failed(s)
  }

  ghost function After(norm: Normalizer, s: State, es: seq<Event>): State {
    if es == [] then s else Apply(norm, After(norm, s, es[..|es| - 1]), es[|es| - 1])
  }

  // The URLs sent to, in order.
  ghost function Trail(norm: Normalizer, s: State, es: seq<Event>): seq<Url> {
    if es == [] then [s.current]
    else
      var past := es[..|es| - 1];
      var t := After(norm, s, past);
      if es[|es| - 1].DoAdvance? && Advance(norm, t, es[|es| - 1].presented).1
      then Trail(norm, s, past) + [After(norm, s, es).current]
      else Trail(norm, s, past)
  }

  // A normalized URL, given to the normalizer again, comes back as it is or is rejected, which
  // happens when escaping and the explicit port have made it longer than 4096 characters.
  ghost predicate Settles(norm: Normalizer) {
    forall text :: SettlesOn(norm, text)
  }

  ghost predicate SettlesOn(norm: Normalizer, text: string) {
    norm(text).Some? ==> norm(norm(text).value.text) in {None, norm(text)}
  }

  // A pending decision leads to a new key, and not from https to http, if it leads anywhere.
  ghost predicate Fresh(norm: Normalizer, s: State) {
    s.pending.Some? ==>
      && s.pending.value.Follow? && s.pending.value.hop == s.hop + 1 <= MAX_HOPS && s.eligible && !s.closed
      && (norm(s.pending.value.url).Some? ==>
            var next := norm(s.pending.value.url).value;
            LoopKey(next.text) !in s.visited && (s.current.https ==> next.https))
  }

  ghost predicate Started(s: State) {
    s.visited == {LoopKey(s.current.text)} && s.hop == 0 && !s.closed && s.pending.None?
  }

  // The trail ends at the current URL and visits the keys in `visited`, each once.
  ghost predicate Recorded(s: State, trail: seq<Url>) {
    && |trail| == s.hop + 1 == |s.visited| <= MAX_HOPS + 1 && trail[s.hop] == s.current
    && (forall k :: 0 <= k < |trail| ==> LoopKey(trail[k].text) in s.visited)
    && (forall j, k :: 0 <= j < k < |trail| ==> LoopKey(trail[j].text) != LoopKey(trail[k].text))
    && (forall j, k :: 0 <= j < k < |trail| && trail[j].https ==> trail[k].https)
  }

  lemma FreshKeeps(norm: Normalizer, s: State, e: Event)
    requires Settles(norm) && Fresh(norm, s) && s.hop <= MAX_HOPS
    ensures Fresh(norm, Apply(norm, s, e))
  {
    if e.DoInspect? && e.resolved.Some? {
      assert SettlesOn(norm, e.resolved.value);
    }
  }

  lemma AdvanceRecords(norm: Normalizer, s: State, trail: seq<Url>)
    requires Recorded(s, trail) && Fresh(norm, s) && Advance(norm, s, true).1
    ensures var t := Advance(norm, s, true).0; Recorded(t, trail + [t.current])
  {
    var t := Advance(norm, s, true).0;
    var longer, key := trail + [t.current], LoopKey(t.current.text);
    assert |t.visited| == |s.visited| + 1;
    assert trail[s.hop] == s.current;
    forall j | 0 <= j < |trail|
      ensures LoopKey(trail[j].text) != key && (trail[j].https ==> t.current.https)
    {
      assert LoopKey(trail[j].text) in s.visited;
      assert j < s.hop && trail[j].https ==> trail[s.hop].https;
    }
  }

  lemma RecordedKeeps(norm: Normalizer, s: State, e: Event, trail: seq<Url>)
    requires Recorded(s, trail) && Fresh(norm, s)
    ensures var t := Apply(norm, s, e);
            Recorded(t, if e.DoAdvance? && Advance(norm, s, e.presented).1 then trail + [t.current] else trail)
  {
    if e.DoAdvance? && Advance(norm, s, e.presented).1 {
      AdvanceRecords(norm, s, trail);
    } else {
      var t := Apply(norm, s, e);
      assert t.current == s.current && t.hop == s.hop && t.visited == s.visited;
    }
  }

  /** Over every run the chain follows at most five hops, to URLs with pairwise different keys,
      and once on https it stays on https. */
  lemma {:induction false} EveryRun(norm: Normalizer, s: State, es: seq<Event>)
    requires Settles(norm) && Started(s)
    ensures Fresh(norm, After(norm, s, es)) && Recorded(After(norm, s, es), Trail(norm, s, es))
    decreases |es|
  {
    if es != [] {
      var past, e := es[..|es| - 1], es[|es| - 1];
      EveryRun(norm, s, past);
      FreshKeeps(norm, After(norm, s, past), e);
      RecordedKeeps(norm, After(norm, s, past), e, Trail(norm, s, past));
    }
  }

  /** So no two URLs of a chain say the same. */
  lemma TrailSaysDifferent(norm: Normalizer, s: State, es: seq<Event>, j: nat, k: nat)
    requires Settles(norm) && Started(s) && j < k < |Trail(norm, s, es)|
    ensures Tokens(Trail(norm, s, es)[j].text) != Tokens(Trail(norm, s, es)[k].text)
  {
    EveryRun(norm, s, es);
    var trail := Trail(norm, s, es);
    assert LoopKey(trail[j].text) != LoopKey(trail[k].text);
    if Tokens(trail[j].text) == Tokens(trail[k].text) {
      KeyOfTokens(trail[j].text, trail[k].text);
    }
  }

  // The text has an escaped dot, slash or backslash, in either case.
  predicate HidesPath(s: string) {
    exists i :: 0 <= i && i + 2 < |s| && s[i] == '%' &&
      (|| (s[i + 1] == '2' && s[i + 2] in "eEfF")
       || (s[i + 1] == '5' && s[i + 2] in "cC"))
  }

  // A location that may be followed at all.
  predicate Followable(s: string) {
    && 1 <= |s| <= 4096 && !HidesPath(s)
    && forall i :: 0 <= i < |s| ==> !IsSpace(s[i]) && s[i] != '\\' && s[i] != '#'
  }

  lemma PathEscapeAt(s: string, i: nat)
    requires i < |s|
    ensures PathEscape(s[i..]) <==>
            i + 2 < |s| && s[i] == '%' && ((s[i + 1] == '2' && s[i + 2] in "eEfF") || (s[i + 1] == '5' && s[i + 2] in "cC"))
  {
    var u := s[i..];
    if |u| >= 3 {
      assert u[0] == s[i] && u[1] == s[i + 1] && u[2] == s[i + 2];
      if EscapeAt(u) {
        PathOctets(u[1], u[2]);
      }
    }
  }

  lemma PathOctets(a: char, b: char)
    requires IsHex(a) && IsHex(b)
    ensures (16 * HexValue(a) + HexValue(b)) as char in "./\\" <==> (a == '2' && b in "eEfF") || (a == '5' && b in "cC")
  {
    var n := 16 * HexValue(a) + HexValue(b);
    assert n as char in "./\\" <==> n == 0x2E || n == 0x2F || n == 0x5C;
    assert HexValue(a) == n / 16 && HexValue(b) == n % 16;
  }

  lemma SafeExactly(s: string)
    ensures SafeLocation(s) <==> Followable(s)
  {
    forall i | 0 <= i < |s|
      ensures PathEscape(s[i..]) <==>
              i + 2 < |s| && s[i] == '%' && ((s[i + 1] == '2' && s[i + 2] in "eEfF") || (s[i + 1] == '5' && s[i + 2] in "cC"))
    {
      PathEscapeAt(s, i);
    }
  }

  // The response redirects, and this chain follows redirects.
  predicate Redirects(s: State, status: int) {
    s.eligible && (status == 301 || status == 302 || status == 303 || status == 307 || status == 308)
  }

  /** A response is inspected only by an open chain with no decision pending, and only with a status of
      100 to 599. It is returned, which ends the chain, if and only if it does not redirect or the
      chain does not follow. Otherwise it is followed if and only if fewer than five hops are behind,
      its location may be followed and normalizes, not from https to http, to a URL whose key is new.
      Anything else fails for good. */
  lemma InspectsExactly(norm: Normalizer, s: State, status: int, location: Option<string>, resolved: Option<string>)
    ensures var (t, d) := Inspect(norm, s, status, location, resolved);
            var heard := !s.closed && s.pending.None? && 100 <= status <= 599;
            var target := if resolved.Some? then norm(resolved.value) else None;
            var follows := heard && Redirects(s, status) && s.hop < 5 && location.Some? && Followable(location.value)
                           && target.Some? && (s.current.https ==> target.value.https) && LoopKey(target.value.text) !in s.visited;
            && (d.Some? && d.value.Return? <==> heard && !Redirects(s, status))
            && (d.Some? && d.value.Follow? <==> follows)
            && (heard && !Redirects(s, status) ==> d == Some(Return(s.hop)) && t == s.(closed := true))
            && (follows ==> d == Some(Follow(s.hop + 1, target.value.text)) && t == s.(pending := d))
            && (d.None? ==> t == s.(closed := true, pending := None))
  {
    if location.Some? {
      SafeExactly(location.value);
    }
  }

  /** A chain advances if and only if it is open, the caller hands back the very decision pending, and
      its URL still normalizes; it then stands at that URL, one hop on, with its key visited. */
  lemma AdvancesExactly(norm: Normalizer, s: State, presented: bool)
    requires s.pending.Some? ==> s.pending.value.Follow?
    ensures var (t, ok) := Advance(norm, s, presented);
            && (ok <==> !s.closed && s.pending.Some? && presented && norm(s.pending.value.url).Some?)
            && (ok ==> var next := norm(s.pending.value.url).value;
                       && t.current == next && t.hop == s.pending.value.hop && t.pending == None && !t.closed
                       && t.visited == s.visited + {LoopKey(next.text)} && t.eligible == s.eligible)
            && (!ok ==> t == s.(closed := true, pending := None))
  {
  }

  /** A chain follows redirects if and only if it was asked for a safe read by GET or HEAD without a
      body; it starts at its URL, open, with that URL's key alone visited. */
  lemma CreatesExactly(url: Option<Url>, verb: string, hasBody: bool, safeRead: bool)
    ensures Create(url, verb, hasBody, safeRead).Some? <==>
            url.Some? && 1 <= |verb| <= 32 && forall i :: 0 <= i < |verb| ==> 'A' <= verb[i] <= 'Z'
    ensures Create(url, verb, hasBody, safeRead).Some? ==>
              var s := Create(url, verb, hasBody, safeRead).value;
              && Started(s) && s.current == url.value
              && (s.eligible <==> safeRead && !hasBody && (verb == "GET" || verb == "HEAD"))
  {
  }

  /** After a failure, a returned response or a close, nothing is followed any more. */
  lemma {:induction false} ClosedForGood(norm: Normalizer, s: State, es: seq<Event>, status: int, location: Option<string>,
                                         resolved: Option<string>)
    requires s.closed && s.pending.None?
    ensures var t := After(norm, s, es);
            t.closed && t.pending.None? && t.current == s.current && t.hop == s.hop
            && Inspect(norm, t, status, location, resolved).1.None? && !Advance(norm, t, true).1
    decreases |es|
  {
    if es != [] {
      ClosedForGood(norm, s, es[..|es| - 1], status, location, resolved);
    }
  }

  class Chain {
    const normalize: Normalizer
    const eligible: bool
    var current: Url
    var visited: set<string>
    var hop: nat
    var closed: bool
    var pending: Option<Decision>

    function View(): State
      reads this
    {
      State(current, visited, hop, closed, pending, eligible)
    }

    constructor (normalize: Normalizer, url: Url, verb: string, hasBody: bool, safeRead: bool)
      requires IsMethod(verb)
      ensures Create(Some(url), verb, hasBody, safeRead) == Some(View()) && this.normalize == normalize
      ensures Started(View())
    {
      this.normalize := normalize;
      current, visited, hop, closed, pending := url, {LoopKey(url.text)}, 0, false, None;
      eligible := safeRead && !hasBody && verb in {"GET", "HEAD"};
    }

    method Close()
      modifies this
      ensures View() == Failed(old(View()))
    {
      closed, pending := true, None;
    }

    method InspectResponse(status: int, location: Option<string>, resolved: Option<string>) returns (r: Option<Decision>)
      modifies this
      ensures (View(), r) == Inspect(normalize, old(View()), status, location, resolved)
    {
      r := None;
      if closed || pending.Some? || status < 100 || status > 599 {
        Close();
        return;
      }
      if !eligible || status !in {301, 302, 303, 307, 308} {
        closed := true;
        return Some(Return(hop));
      }
      if hop >= MAX_HOPS || location.None? || !SafeLocation(location.value) || resolved.None? {
        Close();
        return;
      }
      var target := normalize(resolved.value);
      if target.None? || (current.https && !target.value.https) || LoopKey(target.value.text) in visited {
        Close();
        return;
      }
      r := Some(Follow(hop + 1, target.value.text));
      pending := r;
    }

    method AdvanceTo(presented: bool) returns (ok: bool)
      modifies this
      ensures (View(), ok) == Advance(normalize, old(View()), presented)
    {
      ok := false;
      if closed || pending.None? || !presented || pending.value.Return? {
        Close();
        return;
      }
      var next := normalize(pending.value.url);
      if next.None? {
        Close();
        return;
      }
      current, hop, pending, ok := next.value, pending.value.hop, None, true;
      visited := visited + {LoopKey(current.text)};
    }
  }
}
