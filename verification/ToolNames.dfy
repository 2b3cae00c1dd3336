/**
 Names of the tools made from an API description: every name is cleaned and cut to 64
 characters, and names that collapse to the same text are told apart afterwards by a hash of
 the operation and, if that is taken too, a sequence number.
 */
module ToolNames {
  import opened Common
  import T = AddressText

  // ----- Generating a name -----

  predicate IsNameChar(c: char) {
    IsAlnum(c) || c == '_' || c == '-'
  }

  predicate IsName(s: string) {
    forall i :: 0 <= i < |s| ==> IsNameChar(s[i])
  }

  function Masked(s: string, dash: bool): string {
    seq(|s|, i requires 0 <= i < |s| => if IsAlnum(s[i]) || (dash && s[i] in "_-") then s[i] else '_')
  }

  // Runs of underscores become one.
  function Collapsed(s: string): string {
    if s == [] then []
    else
      var front := Collapsed(s[..|s| - 1]);
      if s[|s| - 1] == '_' && front != [] && front[|front| - 1] == '_' then front else front + [s[|s| - 1]]
  }

  function Trimmed(s: string): string {
    var t := if s != [] && s[0] == '_' then s[1..] else s;
    if t != [] && t[|t| - 1] == '_' then t[..|t| - 1] else t
  }

  function Unbraced(s: string): string {
    if s == [] then []
    else if s[0] in "{}" then Unbraced(s[1..])
    else [s[0]] + Unbraced(s[1..])
  }

  function Cut(s: string, n: nat): string {
    if |s| <= n then s else s[..n]
  }

  function GenerateToolName(verb: string, path: string, operationId: Option<string>): string {
    var cleaned := if operationId.Some? then Trimmed(Collapsed(Masked(operationId.value, true))) else [];
    if cleaned != [] then Cut(cleaned, 64)
    else Cut(verb + "_" + Trimmed(Collapsed(Masked(Unbraced(path), false))), 64)
  }

  lemma {:induction false} CollapsedIsName(s: string)
    requires IsName(s)
    ensures IsName(Collapsed(s)) && |Collapsed(s)| <= |s|
    ensures forall i :: 0 <= i < |Collapsed(s)| - 1 ==> Collapsed(s)[i] != '_' || Collapsed(s)[i + 1] != '_'
  {
    if s != [] {
      CollapsedIsName(s[..|s| - 1]);
    }
  }

  /** Every generated name is non-empty, within 64 permitted characters. */
  lemma GeneratedIsName(verb: string, path: string, operationId: Option<string>)
    requires IsName(verb)
    ensures var name := GenerateToolName(verb, path, operationId); IsName(name) && 1 <= |name| <= 64
  {
    if operationId.Some? {
      CollapsedIsName(Masked(operationId.value, true));
    }
    CollapsedIsName(Masked(Unbraced(path), false));
  }

  lemma {:induction false} CollapsedKeeps(s: string)
    requires forall i :: 0 <= i < |s| - 1 ==> s[i] != '_' || s[i + 1] != '_'
    ensures Collapsed(s) == s
  {
    if s != [] {
      CollapsedKeeps(s[..|s| - 1]);
    }
  }

  /** An operation id that needs no cleaning is its tool's name. */
  lemma CleanIdIsKept(verb: string, path: string, id: string)
    requires IsName(id) && 1 <= |id| <= 64 && id[0] != '_' && id[|id| - 1] != '_'
    requires forall i :: 0 <= i < |id| - 1 ==> id[i] != '_' || id[i + 1] != '_'
    ensures GenerateToolName(verb, path, Some(id)) == id
  {
    assert Masked(id, true) == id;
    CollapsedKeeps(id);
  }

  // ----- A name is made of words -----

  // Letters and digits, and in an operation id the dash.
  predicate IsWordChar(c: char, dash: bool) {
    IsAlnum(c) || (dash && c == '-')
  }

  // The maximal runs of word characters; `open` tells that the last one reaches the end of the text,
  // and `lead` that something else came before the first.
  datatype Runs = Runs(lead: bool, words: seq<string>, open: bool)

  function Extended(r: Runs, c: char, dash: bool): Runs {
    if !IsWordChar(c, dash) then Runs(r.lead || r.words == [], r.words, false)
    else if r.open && r.words != [] then
      var n := |r.words| - 1;
      r.(words := r.words[..n] + [r.words[n] + [c]])
    else Runs(r.lead, r.words + [[c]], true)
  }

  function RunsOf(s: string, dash: bool): Runs {
    if s == [] then Runs(false, [], false) else Extended(RunsOf(s[..|s| - 1], dash), s[|s| - 1], dash)
  }

  function Words(s: string, dash: bool): seq<string> {
    RunsOf(s, dash).words
  }

  predicate IsWord(w: string, dash: bool) {
    w != [] && forall k :: 0 <= k < |w| ==> IsWordChar(w[k], dash)
  }

  predicate AllWords(words: seq<string>, dash: bool) {
    forall i :: 0 <= i < |words| ==> IsWord(words[i], dash)
  }

  lemma {:induction false} WordsAreWords(s: string, dash: bool)
    ensures AllWords(Words(s, dash), dash)
    ensures RunsOf(s, dash).open ==> Words(s, dash) != []
    ensures s != [] ==> RunsOf(s, dash).lead || Words(s, dash) != []
  {
    if s != [] {
      WordsAreWords(s[..|s| - 1], dash);
      var r, c := RunsOf(s[..|s| - 1], dash), s[|s| - 1];
      if IsWordChar(c, dash) && r.words != [] {
        assert IsWord(r.words[|r.words| - 1] + [c], dash);
      }
    }
  }

  // The text with the words joined, and an underscore on the outside where it has something there.
  function Spread(r: Runs): string {
    (if r.lead then "_" else "") + T.Join(r.words, '_') + (if r.words != [] && !r.open then "_" else "")
  }

  lemma {:induction false} JoinLonger(words: seq<string>, word: string)
    ensures T.Join(words + [word], '_') == if words == [] then word else T.Join(words, '_') + "_" + word
  {
    if words != [] {
      T.JoinAppend(words, [word], '_');
    }
  }

  lemma JoinExtended(front: seq<string>, word: string, c: char)
    ensures T.Join(front + [word + [c]], '_') == T.Join(front + [word], '_') + [c]
  {
    JoinLonger(front, word + [c]);
    JoinLonger(front, word);
    if front != [] {
      assert T.Join(front, '_') + "_" + (word + [c]) == T.Join(front, '_') + "_" + word + [c];
    }
  }

  lemma MaskedSnoc(s: string, dash: bool)
    requires s != []
    ensures var n := |s| - 1;
            Masked(s, dash) == Masked(s[..n], dash) + [if IsWordChar(s[n], dash) then s[n] else '_']
  {
  }

  // The end of the spread text is an underscore exactly when the last word is over.
  lemma SpreadEnd(r: Runs, dash: bool)
    requires AllWords(r.words, dash) && (r.open ==> r.words != [])
    ensures Spread(r) == [] <==> !r.lead && r.words == []
    ensures Spread(r) != [] ==> (Spread(r)[|Spread(r)| - 1] == '_' <==> !r.open)
  {
    if r.words != [] {
      JoinEnds(r.words, dash);
    }
  }

  lemma {:induction false} CollapsedIsSpread(s: string, dash: bool)
    ensures Collapsed(Masked(s, dash)) == Spread(RunsOf(s, dash))
  {
    if s != [] {
      var front := s[..|s| - 1];
      CollapsedIsSpread(front, dash);
      MaskedSnoc(s, dash);
      WordsAreWords(front, dash);
      assert Masked(s, dash)[..|s| - 1] == Masked(front, dash);
      SpreadGrows(RunsOf(front, dash), s[|s| - 1], dash);
      SpreadEnd(RunsOf(front, dash), dash);
    }
  }

  lemma SpreadGrows(r: Runs, c: char, dash: bool)
    requires r.open ==> r.words != []
    ensures Spread(Extended(r, c, dash)) ==
            if IsWordChar(c, dash) then Spread(r) + [c]
            else if !r.open && (r.lead || r.words != []) then Spread(r) else Spread(r) + "_"
  {
    if IsWordChar(c, dash) {
      if r.open {
        WordGrows(r, c);
      } else {
        WordStarts(r, c);
      }
    } else {
      GapGrows(r);
    }
  }

  lemma WordGrows(r: Runs, c: char)
    requires r.open && r.words != []
    ensures var n := |r.words| - 1; Spread(r.(words := r.words[..n] + [r.words[n] + [c]])) == Spread(r) + [c]
  {
    var n := |r.words| - 1;
    JoinExtended(r.words[..n], r.words[n], c);
    assert r.words == r.words[..n] + [r.words[n]];
  }

  lemma WordStarts(r: Runs, c: char)
    requires !r.open
    ensures Spread(Runs(r.lead, r.words + [[c]], true)) == Spread(r) + [c]
  {
    JoinLonger(r.words, [c]);
  }

  lemma GapGrows(r: Runs)
    requires r.open ==> r.words != []
    ensures Spread(Runs(r.lead || r.words == [], r.words, false)) ==
            if !r.open && (r.lead || r.words != []) then Spread(r) else Spread(r) + "_"
  {
  }

  lemma TrimmedSpread(r: Runs)
    requires r.open ==> r.words != []
    requires r.words != [] ==> T.Join(r.words, '_') != [] && T.Join(r.words, '_')[0] != '_' && T.Join(r.words, '_')[|T.Join(r.words, '_')| - 1] != '_'
    ensures Trimmed(Spread(r)) == T.Join(r.words, '_')
  {
    var words := T.Join(r.words, '_');
    var tail := if r.words != [] && !r.open then "_" else "";
    if r.lead {
      assert Spread(r)[1..] == words + tail;
    } else {
      assert Spread(r) == words + tail;
    }
    if tail == "_" {
      assert (words + tail)[..|words|] == words;
    }
  }

  lemma JoinEnds(words: seq<string>, dash: bool)
    requires words != [] && AllWords(words, dash)
    ensures var s := T.Join(words, '_'); s != [] && s[0] != '_' && s[|s| - 1] != '_'
  {
    var n := |words| - 1;
    assert IsWord(words[0], dash) && IsWord(words[n], dash);
    assert words == words[..n] + [words[n]] && words == [words[0]] + words[1..];
    JoinLonger(words[..n], words[n]);
    if n > 0 {
      T.JoinMore(words[0], words[1..], '_');
    }
  }

  lemma CleanedIsWords(s: string, dash: bool)
    ensures Trimmed(Collapsed(Masked(s, dash))) == T.Join(Words(s, dash), '_')
    ensures T.Join(Words(s, dash), '_') == [] <==> Words(s, dash) == []
  {
    CollapsedIsSpread(s, dash);
    WordsAreWords(s, dash);
    if Words(s, dash) != [] {
      JoinEnds(Words(s, dash), dash);
    }
    TrimmedSpread(RunsOf(s, dash));
  }

  // Braces vanish wherever they stand, and nothing else does.
  lemma {:induction false} UnbracedAppend(left: string, right: string, c: char)
    ensures Unbraced(left + right) == Unbraced(left) + Unbraced(right)
    ensures Unbraced([c]) == if c == '{' || c == '}' then [] else [c]
  {
    if left != [] {
      UnbracedAppend(left[1..], right, c);
      assert (left + right)[1..] == left[1..] + right;
    } else {
      assert left + right == right;
    }
  }

  /** A tool's name is the words of its operation id, its maximal runs of letters, digits and dashes,
      joined by underscores; without an id, or if that has no word, it is the method and the words of
      the path, braces apart, so joined. It is cut after 64 characters. */
  lemma NameIsWords(verb: string, path: string, operationId: Option<string>)
    ensures GenerateToolName(verb, path, operationId) ==
            if operationId.Some? && Words(operationId.value, true) != [] then Cut(T.Join(Words(operationId.value, true), '_'), 64)
            else Cut(verb + "_" + T.Join(Words(Unbraced(path), false), '_'), 64)
  {
    if operationId.Some? {
      CleanedIsWords(operationId.value, true);
    }
    CleanedIsWords(Unbraced(path), false);
  }

  // ----- Telling equal names apart -----

  // 32-bit FNV-1a over UTF-16 code units.
  function Hash(units: seq<bv16>): bv32 {
    if units == [] then 2166136261 else (Hash(units[..|units| - 1]) ^ (units[|units| - 1] as bv32)) * 16777619
  }

  /** The hash meets the published values of 32-bit FNV-1a for "", "a" and "foobar". */
  lemma HashVectors()
    ensures Hash([]) == 0x811C_9DC5 && Hash([0x61]) == 0xE40C_292C
    ensures Hash([0x66, 0x6F, 0x6F, 0x62, 0x61, 0x72]) == 0xBF9C_F968
  {
    var u: seq<bv16> := [0x66, 0x6F, 0x6F, 0x62, 0x61, 0x72];
    assert u[..6] == u && u[..6][..5] == u[..5] && u[..5][..4] == u[..4] && u[..4][..3] == u[..3];
    assert u[..3][..2] == u[..2] && u[..2][..1] == u[..1] && u[..1][..0] == [];
    assert Hash(u[..1]) == (0x811C_9DC5 ^ 0x66) * 16777619;
    assert Hash(u[..2]) == (Hash(u[..1]) ^ 0x6F) * 16777619;
    assert Hash(u[..3]) == (Hash(u[..2]) ^ 0x6F) * 16777619;
    assert Hash(u[..4]) == (Hash(u[..3]) ^ 0x62) * 16777619;
    assert Hash(u[..5]) == (Hash(u[..4]) ^ 0x61) * 16777619;
  }

  function Padded(s: string): string {
    if |s| < 8 then seq(8 - |s|, i => '0') + s else s
  }

  function Suffix(units: seq<bv16>): string {
    Padded(T.NumberText(Hash(units) as nat, 16))
  }

  function Candidate(name: string, suffix: string, k: nat): string {
    if k == 0 then Cut(name, 55) + "_" + suffix else Cut(name, 44) + "_" + suffix + "_" + T.NumberText(k, 10)
  }

  lemma {:induction false} PowGrows(n: nat)
    ensures n < T.Pow(10, n + 1)
  {
    if n > 0 {
      PowGrows(n - 1);
    }
  }

  lemma NumberIsName(n: nat, base: nat, width: nat)
    requires base in {10, 16} && n < T.Pow(base, width) && width > 0
    ensures IsName(T.NumberText(n, base)) && 1 <= |T.NumberText(n, base)| <= width
  {
    T.NumberRoundTrip(n, base, width);
  }

  lemma SuffixIsEight(units: seq<bv16>)
    ensures IsName(Suffix(units)) && |Suffix(units)| == 8
  {
    assert T.Pow(16, 2) == 256;
    assert T.Pow(16, 4) == 65536;
    assert T.Pow(16, 6) == 0x100_0000;
    assert T.Pow(16, 8) == 0x1_0000_0000;
    NumberIsName(Hash(units) as nat, 16, 8);
  }

  /** A candidate has permitted characters only and fits in 64 of them up to ten digits. */
  lemma CandidateIsName(name: string, units: seq<bv16>, k: nat)
    requires IsName(name)
    ensures IsName(Candidate(name, Suffix(units), k))
    ensures k < 10_000_000_000 ==> |Candidate(name, Suffix(units), k)| <= 64
  {
    SuffixIsEight(units);
    if k > 0 {
      PowGrows(k);
      NumberIsName(k, 10, k + 1);
      if k < 10_000_000_000 {
        assert T.Pow(10, 2) == 100;
        assert T.Pow(10, 4) == 10_000;
        assert T.Pow(10, 6) == 1_000_000;
        assert T.Pow(10, 8) == 100_000_000;
        assert T.Pow(10, 10) == 10_000_000_000;
        NumberIsName(k, 10, 10);
      }
    }
  }

  /** The first candidate keeps the whole name if it fits with the suffix in 64 characters, and else as
      much of it as does; a later one has room for a sequence number of ten digits. */
  lemma CandidateKeeps(name: string, units: seq<bv16>, k: nat)
    ensures var c := Candidate(name, Suffix(units), k);
            && (k == 0 ==> if |name| <= 55 then c == name + "_" + Suffix(units)
                           else |c| == 64 && c == name[..55] + "_" + Suffix(units))
            && (k > 0 ==> c == (if |name| <= 44 then name else name[..44]) + "_" + Suffix(units) + "_" + T.NumberText(k, 10))
  {
    SuffixIsEight(units);
  }

  /** Different sequence numbers give different candidates. */
  lemma CandidatesDiffer(name: string, suffix: string, j: nat, k: nat)
    requires 0 < j < k
    ensures Candidate(name, suffix, j) != Candidate(name, suffix, k)
  {
    PowGrows(j);
    PowGrows(k);
    T.NumberRoundTrip(j, 10, j + 1);
    T.NumberRoundTrip(k, 10, k + 1);
    var stem := Cut(name, 44) + "_" + suffix + "_";
    assert Candidate(name, suffix, j)[|stem|..] == T.NumberText(j, 10);
    assert Candidate(name, suffix, k)[|stem|..] == T.NumberText(k, 10);
  }

  /** The first free candidate. The search ends because each miss uses up a taken name. */
  method FreshName(name: string, suffix: string, used: set<string>) returns (candidate: string, k: nat)
    ensures candidate == Candidate(name, suffix, k) && candidate !in used && k <= |used| + 1
    ensures forall j :: 0 <= j < k ==> Candidate(name, suffix, j) in used
  {
    candidate, k := Candidate(name, suffix, 0), 0;
    ghost var tried: set<string> := {};
    while candidate in used
      invariant candidate == Candidate(name, suffix, k)
      invariant forall j :: 0 <= j < k ==> Candidate(name, suffix, j) in used
      invariant forall s :: s in tried ==> exists j :: 0 < j < k && Candidate(name, suffix, j) == s
      invariant tried <= used && |tried| == (if k == 0 then 0 else k - 1) && k <= |used| + 1
      decreases |used| + 2 - k
    {
      if k > 0 {
        if candidate in tried {
          var j :| 0 < j < k && Candidate(name, suffix, j) == candidate;
          CandidatesDiffer(name, suffix, j, k);
        }
        tried := tried + {candidate};
        SubsetIsSmaller(tried, used);
      }
      k := k + 1;
      candidate := Candidate(name, suffix, k);
    }
  }

  // ----- The whole list -----

  // The places of a name, in order.
  function PlacesOf(names: seq<string>, name: string): seq<nat> {
    if names == [] then []
    else
      var before := PlacesOf(names[..|names| - 1], name);
      if names[|names| - 1] == name then before + [|names| - 1] else before
  }

  function Firsts(names: seq<string>): seq<string> {
    if names == [] then []
    else
      var before := Firsts(names[..|names| - 1]);
      if names[|names| - 1] in before then before else before + [names[|names| - 1]]
  }

  lemma {:induction false} PlacesAreExact(names: seq<string>, name: string)
    ensures var p := PlacesOf(names, name);
            && (forall a :: 0 <= a < |p| ==> p[a] < |names| && names[p[a]] == name)
            && (forall a, b :: 0 <= a < b < |p| ==> p[a] < p[b])
            && (forall i :: 0 <= i < |names| && names[i] == name ==> i in p)
  {
    if names != [] {
      PlacesAreExact(names[..|names| - 1], name);
    }
  }

  lemma AppendDistinct(names: seq<string>, name: string)
    requires Distinct(names) && name !in names
    ensures Distinct(names + [name])
  {
    forall a | 0 <= a < |names|
      ensures names[a] != name
    {
      assert names[a] in names;
    }
  }

  lemma {:induction false} FirstsAreExact(names: seq<string>)
    ensures Distinct(Firsts(names)) && forall s :: s in Firsts(names) <==> s in names
  {
    if names != [] {
      var front, last := names[..|names| - 1], names[|names| - 1];
      assert names == front + [last];
      FirstsAreExact(front);
      if last !in Firsts(front) {
        AppendDistinct(Firsts(front), last);
      }
    }
  }

  ghost predicate Shared(names: seq<string>, i: nat)
    requires i < |names|
  {
    exists j :: 0 <= j < |names| && j != i && names[j] == names[i]
  }

  lemma SharedExactly(names: seq<string>, i: nat)
    requires i < |names|
    ensures Shared(names, i) <==> |PlacesOf(names, names[i])| >= 2
  {
    PlacesAreExact(names, names[i]);
    var p := PlacesOf(names, names[i]);
    if |p| >= 2 {
      assert names[p[0]] == names[i] && names[p[1]] == names[i] && p[0] < p[1];
    }
    if Shared(names, i) {
      var j :| 0 <= j < |names| && j != i && names[j] == names[i];
      assert i in p && j in p;
    }
  }

  function NameSet(names: seq<string>): set<string> {
    if names == [] then {} else NameSet(names[..|names| - 1]) + {names[|names| - 1]}
  }

  lemma {:induction false} NameSetIsExact(names: seq<string>, s: string)
    ensures s in NameSet(names) <==> s in names
  {
    if names != [] {
      NameSetIsExact(names[..|names| - 1], s);
      assert names == names[..|names| - 1] + [names[|names| - 1]];
    }
  }

  lemma {:induction false} NameSetOfUpdate(names: seq<string>, i: nat, s: string)
    requires i < |names|
    ensures NameSet(names[i := s]) + {names[i]} == NameSet(names) + {s}
    ensures |NameSet(names)| <= |names|
  {
    var n := |names| - 1;
    if i < n {
      NameSetOfUpdate(names[..n], i, s);
      assert names[i := s][..n] == names[..n][i := s];
    } else {
      assert names[i := s][..n] == names[..n];
      NamesAreFew(names);
    }
  }

  lemma {:induction false} NamesAreFew(names: seq<string>)
    ensures |NameSet(names)| <= |names|
  {
    if names != [] {
      NamesAreFew(names[..|names| - 1]);
    }
  }

  // A new name is the first candidate that was not taken, by an old name or another new one.
  ghost predicate RenamedTo(was: seq<string>, suffixes: seq<string>, now: seq<string>, i: nat, k: nat)
    requires i < |was| == |suffixes| == |now|
  {
    && now[i] == Candidate(was[i], suffixes[i], k) && now[i] !in was && k <= 2 * |was| + 1
    && forall j :: 0 <= j < k ==> Candidate(was[i], suffixes[i], j) in NameSet(was) + NameSet(now)
  }

  ghost predicate Renamed(was: seq<string>, suffixes: seq<string>, now: seq<string>, i: nat)
    requires i < |was| == |suffixes| == |now|
  {
    exists k: nat :: RenamedTo(was, suffixes, now, i, k)
  }

  ghost predicate AllRenamed(was: seq<string>, suffixes: seq<string>, now: seq<string>, done: set<nat>)
    requires |suffixes| == |was| == |now|
  {
    forall i :: i in done ==> i < |was| && Renamed(was, suffixes, now, i)
  }

  ghost predicate Untouched(was: seq<string>, now: seq<string>, done: set<nat>)
    requires |was| == |now|
  {
    forall i :: 0 <= i < |was| && i !in done ==> now[i] == was[i]
  }

  ghost predicate Different(now: seq<string>, done: set<nat>) {
    forall i, j :: i in done && j in done && i < j < |now| ==> now[i] != now[j]
  }

  lemma DifferentKeeps(now: seq<string>, done: set<nat>, i: nat, c: string)
    requires Different(now, done) && i < |now| && i !in done && c !in NameSet(now)
    ensures Different(now[i := c], done + {i})
  {
    NewHere(now, c);
    var next := now[i := c];
    forall x, y | x in done + {i} && y in done + {i} && x < y < |next|
      ensures next[x] != next[y]
    {
      assert x != i ==> next[x] == now[x];
      assert y != i ==> next[y] == now[y];
    }
  }

  lemma NewHere(now: seq<string>, c: string)
    requires c !in NameSet(now)
    ensures forall x :: 0 <= x < |now| ==> now[x] != c
  {
    NameSetIsExact(now, c);
    assert forall x :: 0 <= x < |now| ==> now[x] in now;
  }

  // Some of the tools that share their name have been renamed, and `used` is every name in play.
  ghost predicate Progress(was: seq<string>, suffixes: seq<string>, now: seq<string>, used: set<string>, done: set<nat>)
    requires |suffixes| == |was|
  {
    && |now| == |was| && AllRenamed(was, suffixes, now, done) && Untouched(was, now, done) && Different(now, done)
    && used == NameSet(was) + NameSet(now)
  }

  lemma NamesGrow(was: seq<string>, now: seq<string>, i: nat, c: string)
    requires i < |was| == |now| && now[i] == was[i]
    ensures NameSet(was) + NameSet(now[i := c]) == NameSet(was) + NameSet(now) + {c}
  {
    NameSetIsExact(was, was[i]);
    NameSetOfUpdate(now, i, c);
  }

  lemma RenamedStays(was: seq<string>, suffixes: seq<string>, now: seq<string>, next: seq<string>, x: nat)
    requires x < |was| == |suffixes| == |now| == |next| && Renamed(was, suffixes, now, x) && next[x] == now[x]
    requires NameSet(was) + NameSet(now) <= NameSet(was) + NameSet(next)
    ensures Renamed(was, suffixes, next, x)
  {
    var m: nat :| RenamedTo(was, suffixes, now, x, m);
    assert RenamedTo(was, suffixes, next, x, m);
  }

  lemma RenameKeeps(was: seq<string>, suffixes: seq<string>, now: seq<string>, used: set<string>, done: set<nat>, i: nat, k: nat)
    requires |suffixes| == |was| && Progress(was, suffixes, now, used, done) && i < |was| && i !in done && k <= 2 * |was| + 1
    requires Candidate(was[i], suffixes[i], k) !in used
    requires forall j :: 0 <= j < k ==> Candidate(was[i], suffixes[i], j) in used
    ensures var c := Candidate(was[i], suffixes[i], k);
            Progress(was, suffixes, now[i := c], used + {c}, done + {i})
  {
    var c := Candidate(was[i], suffixes[i], k);
    var next := now[i := c];
    NamesGrow(was, now, i, c);
    DifferentKeeps(now, done, i, c);
    NewIsRenamed(was, suffixes, now, i, k);
    AllRenamedStays(was, suffixes, now, next, done);
  }

  lemma AllRenamedStays(was: seq<string>, suffixes: seq<string>, now: seq<string>, next: seq<string>, done: set<nat>)
    requires |was| == |suffixes| == |now| == |next| && AllRenamed(was, suffixes, now, done)
    requires forall x :: x in done ==> next[x] == now[x]
    requires NameSet(was) + NameSet(now) <= NameSet(was) + NameSet(next)
    ensures AllRenamed(was, suffixes, next, done)
  {
    forall x | x in done
      ensures Renamed(was, suffixes, next, x)
    {
      RenamedStays(was, suffixes, now, next, x);
    }
  }

  lemma NewIsRenamed(was: seq<string>, suffixes: seq<string>, now: seq<string>, i: nat, k: nat)
    requires i < |was| == |suffixes| == |now| && k <= 2 * |was| + 1 && now[i] == was[i]
    requires Candidate(was[i], suffixes[i], k) !in NameSet(was) + NameSet(now)
    requires forall j :: 0 <= j < k ==> Candidate(was[i], suffixes[i], j) in NameSet(was) + NameSet(now)
    ensures Renamed(was, suffixes, now[i := Candidate(was[i], suffixes[i], k)], i)
  {
    var c := Candidate(was[i], suffixes[i], k);
    NamesGrow(was, now, i, c);
    NameSetIsExact(was, c);
    assert RenamedTo(was, suffixes, now[i := c], i, k);
  }

  lemma UsedAreFew(was: seq<string>, suffixes: seq<string>, now: seq<string>, used: set<string>, done: set<nat>)
    requires |suffixes| == |was| && Progress(was, suffixes, now, used, done)
    ensures |used| <= 2 * |was|
  {
    NamesAreFew(was);
    NamesAreFew(now);
  }

  method GroupByName(names: seq<string>) returns (order: seq<string>, groups: map<string, seq<nat>>)
    ensures order == Firsts(names) && groups.Keys == (set s | s in order)
    ensures forall s :: s in groups ==> groups[s] == PlacesOf(names, s)
  {
    order, groups := [], map[];
    for i := 0 to |names|
      invariant order == Firsts(names[..i]) && groups.Keys == (set s | s in order)
      invariant forall s :: s in groups ==> groups[s] == PlacesOf(names[..i], s)
      invariant forall s :: s !in groups ==> PlacesOf(names[..i], s) == []
    {
      assert names[..i + 1][..i] == names[..i];
      var name := names[i];
      var before := if name in groups then groups[name] else [];
      if name !in groups {
        order := order + [name];
      }
      groups := groups[name := before + [i]];
    }
    assert names[..|names|] == names;
  }

  method RenameOne(names: array<string>, suffixes: seq<string>, i: nat, name: string, taken: set<string>,
                   ghost was: seq<string>, ghost done: set<nat>)
    returns (used: set<string>)
    requires names.Length == |suffixes| == |was| && Progress(was, suffixes, names[..], taken, done)
    requires i < |was| && was[i] == name && i !in done
    modifies names
    ensures Progress(was, suffixes, names[..], used, done + {i})
  {
    var candidate, k := FreshName(name, suffixes[i], taken);
    UsedAreFew(was, suffixes, names[..], taken, done);
    RenameKeeps(was, suffixes, names[..], taken, done, i, k);
    Assign(names, i, candidate);
    used := taken + {candidate};
  }

  // Renames the tools of one group, none of which has been renamed yet.
  method RenameGroup(names: array<string>, suffixes: seq<string>, group: seq<nat>, name: string, taken: set<string>,
                     ghost was: seq<string>, ghost done: set<nat>)
    returns (used: set<string>)
    requires names.Length == |suffixes| == |was| && Progress(was, suffixes, names[..], taken, done)
    requires forall a :: 0 <= a < |group| ==> group[a] < |was| && was[group[a]] == name && group[a] !in done
    requires forall a, b :: 0 <= a < b < |group| ==> group[a] < group[b]
    modifies names
    ensures Progress(was, suffixes, names[..], used, done + Members(group))
  {
    used := taken;
    ghost var now := done;
    for a := 0 to |group|
      invariant Progress(was, suffixes, names[..], used, now)
      invariant forall x :: x in now <==> x in done || x in group[..a]
    {
      var i := group[a];
      assert i !in group[..a];
      assert group[..a + 1] == group[..a] + [i];
      used := RenameOne(names, suffixes, i, name, used, was, now);
      now := now + {i};
    }
    assert group[..|group|] == group;
    assert now == done + Members(group);
  }

  method Assign(names: array<string>, i: nat, name: string)
    requires i < names.Length
    modifies names
    ensures names[..] == old(names[..])[i := name]
  {
    names[i] := name;
  }

  ghost function Members(group: seq<nat>): set<nat> {
    set i | i in group
  }

  // The shared names among the first g have been dealt with, and no others.
  ghost predicate DoneUpTo(was: seq<string>, order: seq<string>, done: set<nat>) {
    forall i :: 0 <= i < |was| ==> (i in done <==> Shared(was, i) && was[i] in order)
  }

  lemma NextName(order: seq<string>, g: nat)
    requires Distinct(order) && g < |order|
    ensures order[..g + 1] == order[..g] + [order[g]] && order[g] !in order[..g]
  {
  }

  lemma GroupIsFree(was: seq<string>, order: seq<string>, done: set<nat>, name: string)
    requires DoneUpTo(was, order, done) && name !in order
    ensures var group := PlacesOf(was, name);
            && (forall a :: 0 <= a < |group| ==> group[a] < |was| && was[group[a]] == name && group[a] !in done)
            && (forall a, b :: 0 <= a < b < |group| ==> group[a] < group[b])
  {
    PlacesAreExact(was, name);
  }

  lemma ProgressStarts(was: seq<string>, suffixes: seq<string>)
    requires |was| == |suffixes|
    ensures Progress(was, suffixes, was, NameSet(was), {}) && DoneUpTo(was, [], {})
  {
  }

  lemma GroupIsDone(was: seq<string>, order: seq<string>, done: set<nat>, name: string)
    requires DoneUpTo(was, order, done) && name !in order
    ensures var group := PlacesOf(was, name);
            DoneUpTo(was, order + [name], if |group| >= 2 then done + Members(group) else done)
  {
    PlacesAreExact(was, name);
    GroupIsShared(was, name);
  }

  method Deduplicate(names: array<string>, suffixes: seq<string>)
    requires names.Length == |suffixes|
    modifies names
    ensures Deduplicated(old(names[..]), suffixes, names[..])
  {
    ghost var was := names[..];
    var order, groups := GroupByName(names[..]);
    FirstsAreExact(was);
    var used := NameSet(names[..]);
    ghost var done: set<nat> := {};
    ProgressStarts(was, suffixes);
    assert order[..0] == [];
    for g := 0 to |order|
      invariant Progress(was, suffixes, names[..], used, done) && DoneUpTo(was, order[..g], done)
    {
      var name := order[g];
      assert name in order;
      var group := groups[name];
      NextName(order, g);
      GroupIsFree(was, order[..g], done, name);
      GroupIsDone(was, order[..g], done, name);
      if |group| >= 2 {
        used := RenameGroup(names, suffixes, group, name, used, was, done);
        done := done + Members(group);
      }
    }
    assert order[..|order|] == order;
    assert forall i :: 0 <= i < |was| ==> was[i] in was;
    FinishedIsDistinct(was, suffixes, names[..], used, done);
  }

  // The places of a name are shared when there are two of them.
  lemma GroupIsShared(names: seq<string>, name: string)
    ensures forall i :: 0 <= i < |names| && names[i] == name ==> (Shared(names, i) <==> |PlacesOf(names, name)| >= 2)
  {
    forall i | 0 <= i < |names| && names[i] == name
      ensures Shared(names, i) <==> |PlacesOf(names, name)| >= 2
    {
      SharedExactly(names, i);
    }
  }

  // All names differ; a name that was unique is unchanged, and each of the others has become its
  // first candidate not taken by any old or new name.
  ghost predicate Deduplicated(was: seq<string>, suffixes: seq<string>, now: seq<string>)
    requires |was| == |suffixes|
  {
    && |now| == |was|
    && (forall i, j :: 0 <= i < j < |now| ==> now[i] != now[j])
    && (forall i :: 0 <= i < |now| ==> if Shared(was, i) then Renamed(was, suffixes, now, i) else now[i] == was[i])
  }

  lemma FinishedIsDistinct(was: seq<string>, suffixes: seq<string>, now: seq<string>, used: set<string>, done: set<nat>)
    requires |suffixes| == |was| && Progress(was, suffixes, now, used, done)
    requires forall i :: 0 <= i < |was| ==> (i in done <==> Shared(was, i))
    ensures Deduplicated(was, suffixes, now)
  {
    forall i, j | 0 <= i < j < |now|
      ensures now[i] != now[j]
    {
      if i in done && j !in done {
        RenamedIsNew(was, suffixes, now, i, j);
      } else if j in done && i !in done {
        RenamedIsNew(was, suffixes, now, j, i);
      } else if i !in done {
        assert !Shared(was, i);
      }
    }
  }

  lemma RenamedIsNew(was: seq<string>, suffixes: seq<string>, now: seq<string>, i: nat, j: nat)
    requires i < |was| == |suffixes| == |now| && Renamed(was, suffixes, now, i) && j < |was| && now[j] == was[j]
    ensures now[i] != now[j]
  {
    var k: nat :| RenamedTo(was, suffixes, now, i, k);
    assert was[j] in was;
  }

  /** With fewer than five thousand million tools, every final name is permitted. */
  lemma FinalNamesFit(was: seq<string>, suffixes: seq<string>, now: seq<string>, i: nat, units: seq<bv16>)
    requires i < |was| == |suffixes| == |now| < 4_999_999_999 && IsName(was[i]) && |was[i]| <= 64
    requires Deduplicated(was, suffixes, now) && suffixes[i] == Suffix(units)
    ensures IsName(now[i]) && |now[i]| <= 64
  {
    if now[i] != was[i] {
      var k: nat :| RenamedTo(was, suffixes, now, i, k);
      CandidateIsName(was[i], units, k);
    }
  }
}
