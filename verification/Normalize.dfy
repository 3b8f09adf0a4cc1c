/**
 The scorer's text normalization: lower case, no dollar signs, no grouping commas, single spaces.
 Each regular-expression replacement is its left-to-right scan; the amounts it has to undo are those
 that the fixture inventory formats.
 */
module Normalize {
  import opened Common

  /** `/\$\s?/g` replaced by nothing. */
  function StripDollars(s: string): string {
    if s == [] then []
    else if s[0] == '$' then
      if |s| > 1 && IsSpace(s[1]) then StripDollars(s[2..]) else StripDollars(s[1..])
    else [s[0]] + StripDollars(s[1..])
  }

  /** How many digits `s` starts with. */
  function DigitRun(s: string): nat {
    if s == [] || !IsDigit(s[0]) then 0 else 1 + DigitRun(s[1..])
  }

  /** A match of `/(\d),(?=\d{3}(?!\d))/` at the front: a digit, a comma, exactly three digits. */
  predicate GroupingAt(s: string) {
    |s| >= 2 && IsDigit(s[0]) && s[1] == ',' && DigitRun(s[2..]) == 3
  }

  /** Every match loses its comma; the scan goes on right after it. */
  function StripCommas(s: string): string {
    if s == [] then []
    else if GroupingAt(s) then [s[0]] + StripCommas(s[2..])
    else [s[0]] + StripCommas(s[1..])
  }

  /** `/\s+/g` replaced by one space. */
  function Collapse(s: string): string
    decreases |s|
  {
    if s == [] then []
    else if IsSpace(s[0]) then [' '] + Collapse(SkipSpaces(s[1..]))
    else [s[0]] + Collapse(s[1..])
  }

  function Normalize(text: string): string {
    Trim(Collapse(StripCommas(StripDollars(Lower(text)))))
  }

  // ----- What a normal form looks like -----

  ghost predicate Plain(s: string) {
    forall i | 0 <= i < |s| :: s[i] != '$' && LowerChar(s[i]) == s[i]
  }

  ghost predicate Ungrouped(s: string) {
    s == [] || (!GroupingAt(s) && Ungrouped(s[1..]))
  }

  /** Every space is the plain one, and none stands next to another. */
  ghost predicate Spaced(s: string) {
    s == [] || ((IsSpace(s[0]) ==> s[0] == ' ' && (|s| == 1 || !IsSpace(s[1]))) && Spaced(s[1..]))
  }

  ghost predicate Trimmed(s: string) {
    s == [] || (!IsSpace(s[0]) && !IsSpace(s[|s| - 1]))
  }

  ghost predicate Normal(s: string) {
    Plain(s) && Ungrouped(s) && Spaced(s) && Trimmed(s)
  }

  // ----- Each stage leaves a normal form alone -----

  lemma LowerKeeps(s: string)
    requires Plain(s)
    ensures Lower(s) == s
  {
  }

  lemma {:induction false} DollarsKeep(s: string)
    requires Plain(s)
    ensures StripDollars(s) == s
  {
    if s != [] { DollarsKeep(s[1..]); }
  }

  lemma {:induction false} CommasKeep(s: string)
    requires Ungrouped(s)
    ensures StripCommas(s) == s
  {
    if s != [] { CommasKeep(s[1..]); }
  }

  lemma {:induction false} CollapseKeeps(s: string)
    requires Spaced(s)
    ensures Collapse(s) == s
  {
    if s != [] {
      CollapseKeeps(s[1..]);
    }
  }

  lemma NormalIsFixed(s: string)
    requires Normal(s)
    ensures Normalize(s) == s
  {
    LowerKeeps(s);
    DollarsKeep(s);
    CommasKeep(s);
    CollapseKeeps(s);
  }

  // ----- Each stage establishes its part and keeps the earlier ones -----

  lemma LowerLowers(s: string)
    ensures forall c | c in Lower(s) :: LowerChar(c) == c
  {
  }

  lemma {:induction false} DollarsGone(s: string)
    ensures forall c | c in StripDollars(s) :: c in s && c != '$'
  {
    if s != [] {
      if s[0] == '$' && |s| > 1 && IsSpace(s[1]) { DollarsGone(s[2..]); } else { DollarsGone(s[1..]); }
    }
  }

  lemma {:induction false} CommasKeepChars(s: string)
    ensures forall c | c in StripCommas(s) :: c in s
  {
    if s != [] {
      if GroupingAt(s) { CommasKeepChars(s[2..]); } else { CommasKeepChars(s[1..]); }
    }
  }

  /** Removing commas only ever joins a run of digits with a whole group: a run stays as long as it
      was, or grows by three or more. */
  lemma {:induction false} RunGrows(s: string)
    ensures var was, now := DigitRun(s), DigitRun(StripCommas(s));
            now == was || (was >= 1 && now >= was + 3)
  {
    if s != [] && IsDigit(s[0]) {
      if GroupingAt(s) {
        RunGrows(s[2..]);
        assert StripCommas(s)[1..] == StripCommas(s[2..]);
      } else {
        RunGrows(s[1..]);
        assert StripCommas(s)[1..] == StripCommas(s[1..]);
      }
    }
  }

  /** Where the result has a digit and a comma, the text had them too, and no group of three after them
      came about by joining. */
  lemma NoGroupingLeft(s: string)
    ensures !GroupingAt(StripCommas(s))
  {
    var r := StripCommas(s);
    if |r| >= 2 && IsDigit(r[0]) && r[1] == ',' {
      var rest := if GroupingAt(s) then s[2..] else s[1..];
      assert r[1..] == StripCommas(rest);
      assert rest != [] && rest[0] == ',';
      assert !GroupingAt(s) && rest == s[1..];
      assert StripCommas(rest)[1..] == StripCommas(rest[1..]);
      assert r[2..] == StripCommas(s[2..]) by { assert r[2..] == r[1..][1..] && rest[1..] == s[2..]; }
      RunGrows(s[2..]);
      assert DigitRun(s[2..]) != 3;
    }
  }

  /** So one pass is enough: a comma that was no grouping comma does not become one. */
  lemma {:induction false} CommasGone(s: string)
    ensures Ungrouped(StripCommas(s))
  {
    if s != [] {
      var rest := if GroupingAt(s) then s[2..] else s[1..];
      CommasGone(rest);
      NoGroupingLeft(s);
      assert StripCommas(s)[1..] == StripCommas(rest);
    }
  }

  lemma {:induction false} UngroupedSuffix(s: string, k: nat)
    requires k <= |s| && Ungrouped(s)
    ensures Ungrouped(s[k..])
  {
    if k > 0 {
      UngroupedSuffix(s[1..], k - 1);
      assert s[1..][k - 1..] == s[k..];
    }
  }

  lemma {:induction false} CollapseKeepsRun(s: string)
    ensures DigitRun(Collapse(s)) == DigitRun(s)
  {
    if s != [] && IsDigit(s[0]) {
      CollapseKeepsRun(s[1..]);
      assert Collapse(s)[1..] == Collapse(s[1..]);
    }
  }

  lemma {:induction false} CollapseKeepsPlain(s: string)
    requires Plain(s)
    ensures Plain(Collapse(s))
    decreases |s|
  {
    hide SkipSpaces;
    if s != [] {
      var rest := if IsSpace(s[0]) then SkipSpaces(s[1..]) else s[1..];
      SkipIsSuffix(s[1..]);
      CollapseKeepsPlain(rest);
    }
  }

  /** Collapsing makes no grouping comma out of another. */
  lemma CollapseKeepsGrouping(s: string)
    requires GroupingAt(Collapse(s))
    ensures GroupingAt(s)
  {
    assert s != [] && !IsSpace(s[0]);
    var rest := s[1..];
    assert Collapse(s)[1..] == Collapse(rest);
    assert rest != [] && rest[0] == ',';
    assert Collapse(rest)[1..] == Collapse(rest[1..]);
    assert Collapse(s)[2..] == Collapse(rest)[1..];
    CollapseKeepsRun(rest[1..]);
    assert rest[1..] == s[2..];
  }

  lemma {:induction false} CollapseKeepsUngrouped(s: string)
    requires Ungrouped(s)
    ensures Ungrouped(Collapse(s))
    decreases |s|
  {
    hide SkipSpaces, DigitRun, GroupingAt, IsSpace;
    if s != [] {
      var rest := if IsSpace(s[0]) then SkipSpaces(s[1..]) else s[1..];
      SkipIsSuffix(s[1..]);
      UngroupedSuffix(s[1..], |s[1..]| - |rest|);
      CollapseKeepsUngrouped(rest);
      if GroupingAt(Collapse(s)) { CollapseKeepsGrouping(s); }
      assert Collapse(s)[1..] == Collapse(rest);
    }
  }

  lemma {:induction false} CollapseSpaces(s: string)
    ensures Spaced(Collapse(s))
    ensures s != [] ==> Collapse(s) != [] && (IsSpace(Collapse(s)[0]) <==> IsSpace(s[0]))
    decreases |s|
  {
    hide SkipSpaces;
    if s != [] {
      var rest := if IsSpace(s[0]) then SkipSpaces(s[1..]) else s[1..];
      SkipIsSuffix(s[1..]);
      CollapseSpaces(rest);
      assert Collapse(s)[1..] == Collapse(rest);
    }
  }

  lemma {:induction false} RunBeforeSpace(s: string)
    requires s != [] && !IsDigit(s[|s| - 1])
    ensures DigitRun(s[..|s| - 1]) == DigitRun(s)
  {
    if IsDigit(s[0]) {
      RunBeforeSpace(s[1..]);
      assert s[..|s| - 1][1..] == s[1..][..|s| - 2];
    }
  }

  lemma {:induction false} UngroupedInit(s: string)
    requires s != [] && IsSpace(s[|s| - 1]) && Ungrouped(s)
    ensures Ungrouped(s[..|s| - 1])
  {
    if |s| > 1 {
      UngroupedInit(s[1..]);
      var init := s[..|s| - 1];
      assert init[1..] == s[1..][..|s| - 2];
      if GroupingAt(init) {
        assert init[2..] == s[2..][..|s| - 3];
        RunBeforeSpace(s[2..]);
      }
    }
  }

  lemma {:induction false} SpacedInit(s: string)
    requires s != [] && Spaced(s)
    ensures Spaced(s[..|s| - 1])
  {
    if |s| > 1 {
      SpacedInit(s[1..]);
      assert s[..|s| - 1][1..] == s[1..][..|s| - 2];
    }
  }

  lemma {:induction false} TrimEndKeeps(s: string)
    requires Plain(s) && Ungrouped(s) && Spaced(s) && (s != [] ==> !IsSpace(s[0]))
    ensures Normal(TrimEnd(s))
  {
    if s != [] && IsSpace(s[|s| - 1]) {
      UngroupedInit(s);
      SpacedInit(s);
      TrimEndKeeps(s[..|s| - 1]);
    }
  }

  lemma NormalizeIsNormal(text: string)
    ensures Normal(Normalize(text))
  {
    var lower := Lower(text);
    LowerLowers(text);
    var bare := StripDollars(lower);
    DollarsGone(lower);
    var joined := StripCommas(bare);
    CommasKeepChars(bare);
    assert Plain(joined) by {
      forall i | 0 <= i < |joined| ensures joined[i] != '$' && LowerChar(joined[i]) == joined[i] {
        assert joined[i] in joined;
      }
    }
    CommasGone(bare);
    var spaced := Collapse(joined);
    CollapseKeepsPlain(joined);
    CollapseKeepsUngrouped(joined);
    CollapseSpaces(joined);
    SkipIsSuffix(spaced);
    UngroupedSuffix(spaced, |spaced| - |SkipSpaces(spaced)|);
    SuffixKeeps(spaced, |spaced| - |SkipSpaces(spaced)|);
    TrimEndKeeps(SkipSpaces(spaced));
  }

  lemma {:induction false} SuffixKeeps(s: string, k: nat)
    requires k <= |s| && Plain(s) && Spaced(s)
    ensures Plain(s[k..]) && Spaced(s[k..])
  {
    if k > 0 {
      SuffixKeeps(s[1..], k - 1);
      assert s[1..][k - 1..] == s[k..];
    }
  }

  /** Normalizing twice is normalizing once. */
  lemma NormalizeIsIdempotent(text: string)
    ensures Normalize(Normalize(text)) == Normalize(text)
  {
    NormalizeIsNormal(text);
    NormalIsFixed(Normalize(text));
  }

  // ----- What survives -----

  /** A dollar sign goes, and so does a space right after one. */
  predicate DollarDrops(s: string, i: nat) {
    i < |s| && (s[i] == '$' || (i > 0 && IsSpace(s[i]) && s[i - 1] == '$'))
  }

  /** A comma goes between a digit and exactly three digits. */
  predicate CommaDrops(s: string, i: nat) {
    && 0 < i && i + 3 < |s| && s[i] == ','
    && IsDigit(s[i - 1]) && IsDigit(s[i + 1]) && IsDigit(s[i + 2]) && IsDigit(s[i + 3])
    && (i + 4 < |s| ==> !IsDigit(s[i + 4]))
  }

  /** The characters of `s` from place `from` on, without those to drop. */
  function Surviving(s: string, from: nat, drops: (string, nat) -> bool): string
    requires from <= |s|
    decreases |s| - from
  {
    if from == |s| then []
    else (if drops(s, from) then [] else [s[from]]) + Surviving(s, from + 1, drops)
  }

  lemma {:induction false} DollarsAre(s: string, i: nat)
    requires i <= |s| && (DollarDrops(s, i) ==> s[i] == '$')
    ensures StripDollars(s[i..]) == Surviving(s, i, DollarDrops)
    decreases |s| - i
  {
    if i < |s| {
      var pair := s[i] == '$' && i + 1 < |s| && IsSpace(s[i + 1]);
      assert s[i..][1..] == s[i + 1..];
      assert DollarDrops(s, i) <==> s[i] == '$';
      assert pair ==> DollarDrops(s, i + 1) && s[i..][2..] == s[i + 2..];
      assert !pair && DollarDrops(s, i + 1) ==> s[i + 1] == '$';
      assert pair && DollarDrops(s, i + 2) ==> s[i + 2] == '$';
      hide DollarDrops;
      DollarsAre(s, if pair then i + 2 else i + 1);
    }
  }

  lemma {:induction false} RunIsThree(s: string)
    ensures DigitRun(s) == 3 <==>
            |s| >= 3 && IsDigit(s[0]) && IsDigit(s[1]) && IsDigit(s[2]) && (|s| > 3 ==> !IsDigit(s[3]))
  {
    RunAtLeast(s, 1);
    RunAtLeast(s, 2);
    RunAtLeast(s, 3);
    RunAtLeast(s, 4);
  }

  lemma {:induction false} RunAtLeast(s: string, n: nat)
    ensures DigitRun(s) >= n <==> n <= |s| && forall i | 0 <= i < n :: IsDigit(s[i])
  {
    if n > 0 && s != [] {
      RunAtLeast(s[1..], n - 1);
      assert n <= |s| ==> forall i | 1 <= i < n :: s[i] == s[1..][i - 1];
    }
  }

  lemma GroupingDrops(s: string, i: nat)
    requires i < |s|
    ensures GroupingAt(s[i..]) <==> CommaDrops(s, i + 1)
  {
    if i + 2 <= |s| {
      assert s[i..][2..] == s[i + 2..];
      RunIsThree(s[i + 2..]);
    }
  }

  lemma {:induction false} CommasAre(s: string, i: nat)
    requires i <= |s| && !CommaDrops(s, i)
    ensures StripCommas(s[i..]) == Surviving(s, i, CommaDrops)
    decreases |s| - i
  {
    if i < |s| {
      GroupingDrops(s, i);
      if GroupingAt(s[i..]) {
        NoCommaHere(s, i + 2);
        CommasAre(s, i + 2);
        CommaGoes(s, i);
      } else {
        CommasAre(s, i + 1);
        CommaStays(s, i);
      }
    }
  }

  /** The two steps of the scan. */
  lemma CommaGoes(s: string, i: nat)
    requires i + 2 <= |s| && GroupingAt(s[i..]) && !CommaDrops(s, i) && CommaDrops(s, i + 1)
    ensures StripCommas(s[i..]) == [s[i]] + StripCommas(s[i + 2..])
    ensures Surviving(s, i, CommaDrops) == [s[i]] + Surviving(s, i + 2, CommaDrops)
  {
    hide GroupingAt, CommaDrops;
    assert s[i..][2..] == s[i + 2..];
  }

  lemma CommaStays(s: string, i: nat)
    requires i < |s| && !GroupingAt(s[i..]) && !CommaDrops(s, i)
    ensures StripCommas(s[i..]) == [s[i]] + StripCommas(s[i + 1..])
    ensures Surviving(s, i, CommaDrops) == [s[i]] + Surviving(s, i + 1, CommaDrops)
  {
    hide GroupingAt, CommaDrops;
    assert s[i..][1..] == s[i + 1..];
  }

  lemma NoCommaHere(s: string, i: nat)
    requires i >= 2 && CommaDrops(s, i - 1)
    ensures i <= |s| && !CommaDrops(s, i)
  {
  }

  function WordLength(s: string): (n: nat)
    ensures n <= |s|
  {
    if s == [] || IsSpace(s[0]) then 0 else 1 + WordLength(s[1..])
  }

  /** The stretches between white space. */
  function Words(s: string): seq<string>
    decreases |s|
  {
    var t := SkipSpaces(s);
    if t == [] then []
    else
      SkipIsSuffix(s);
      [t[..WordLength(t)]] + Words(t[WordLength(t)..])
  }

  /** Words with one space between them. */
  function Spell(words: seq<string>): string {
    if words == [] then []
    else if |words| == 1 then words[0]
    else words[0] + [' '] + Spell(words[1..])
  }

  lemma {:induction false} CollapseWord(s: string)
    ensures var n := WordLength(s);
            && Collapse(s) == s[..n] + Collapse(s[n..])
            && (forall i | 0 <= i < n :: !IsSpace(s[i]))
            && (n < |s| ==> IsSpace(s[n]))
  {
    var n := WordLength(s);
    if n > 0 {
      hide IsSpace, SkipSpaces;
      CollapseWord(s[1..]);
      assert s[n..] == s[1..][n - 1..];
      assert s[..n] == [s[0]] + s[1..][..n - 1];
      assert Collapse(s) == [s[0]] + Collapse(s[1..]);
      assert forall i | 1 <= i < n :: s[i] == s[1..][i - 1];
    } else {
      assert s[..0] + Collapse(s[0..]) == Collapse(s) by { assert s[0..] == s; }
    }
  }

  lemma SkipCollapsed(s: string)
    ensures SkipSpaces(Collapse(s)) == Collapse(SkipSpaces(s))
  {
    if s != [] && IsSpace(s[0]) {
      SkipIsSuffix(s);
      CollapseSpaces(SkipSpaces(s[1..]));
      assert Collapse(s)[1..] == Collapse(SkipSpaces(s[1..]));
    } else {
      CollapseSpaces(s);
    }
  }

  /** Trailing white space is cut off behind the last word only. */
  lemma {:induction false} TrimBehind(a: string, b: string)
    requires a != [] && !IsSpace(a[|a| - 1])
    ensures TrimEnd(a + b) == a + TrimEnd(b)
  {
    if b == [] {
      assert a + b == a;
    } else if IsSpace(b[|b| - 1]) {
      TrimBehind(a, b[..|b| - 1]);
      assert (a + b)[..|a + b| - 1] == a + b[..|b| - 1];
    }
  }

  lemma {:induction false} WordsSurvive(s: string)
    ensures Trim(Collapse(s)) == Spell(Words(s))
    decreases |s|
  {
    var t := SkipSpaces(s);
    SkipIsSuffix(s);
    SkipCollapsed(s);
    if t != [] {
      var n := WordLength(t);
      var word, rest := t[..n], t[n..];
      CollapseWord(t);
      WordsSurvive(rest);
      if rest == [] {
        TrimBehind(word, []);
        assert Collapse(t) == word + [];
        assert Words(rest) == [];
      } else {
        LaterWords(word, rest);
      }
    }
  }

  /** What becomes of a word and the white space and words behind it. */
  lemma LaterWords(word: string, rest: string)
    requires word != [] && !IsSpace(word[|word| - 1])
    requires rest != [] && IsSpace(rest[0])
    requires Trim(Collapse(rest)) == Spell(Words(rest))
    ensures TrimEnd(word + Collapse(rest)) == Spell([word] + Words(rest))
  {
    var later := Collapse(SkipSpaces(rest));
    SkipIsSuffix(rest);
    SkipCollapsed(rest);
    CollapseSpaces(SkipSpaces(rest));
    assert Collapse(rest) == [' '] + later;
    TrimBehind(word, Collapse(rest));
    assert ([word] + Words(rest))[1..] == Words(rest);
    if later == [] {
      assert SkipSpaces(rest) == [];
      assert TrimEnd([' ']) == TrimEnd([' '][..0]);
    } else {
      assert SkipSpaces(rest) != [];
      TrimKeepsFirst(later);
    }
  }

  lemma {:induction false} TrimKeepsFirst(s: string)
    requires s != [] && !IsSpace(s[0])
    ensures TrimEnd([' '] + s) == [' '] + TrimEnd(s)
  {
    var init := s[..|s| - 1];
    if IsSpace(s[|s| - 1]) {
      TrimKeepsFirst(init);
      assert ([' '] + s)[..|s|] == [' '] + init;
    }
  }

  /** All of normalization, character by character: lower case; dollar signs and a space after each
      dropped; grouping commas dropped; and the words of what is left, with one space between them. */
  lemma NormalizeIs(text: string)
    ensures var bare := Surviving(Lower(text), 0, DollarDrops);
            Normalize(text) == Spell(Words(Surviving(bare, 0, CommaDrops)))
  {
    var lower := Lower(text);
    DollarsAre(lower, 0);
    assert lower[0..] == lower;
    var bare := StripDollars(lower);
    CommasAre(bare, 0);
    assert bare[0..] == bare;
    WordsSurvive(StripCommas(bare));
  }

  predicate Droppable(c: char) {
    IsSpace(c) || c == '$' || c == ','
  }

  /** The characters that normalization has no business with, in order. */
  function Kept(s: string): string {
    if s == [] then [] else if Droppable(s[0]) then Kept(s[1..]) else [s[0]] + Kept(s[1..])
  }

  /** How a first character counts. */
  lemma KeptOfCons(c: char, s: string)
    ensures Kept([c] + s) == if Droppable(c) then Kept(s) else [c] + Kept(s)
  {
    assert ([c] + s)[1..] == s;
  }

  lemma {:induction false} TrimEndKeepsText(s: string)
    ensures Kept(TrimEnd(s)) == Kept(s)
  {
    if s != [] && IsSpace(s[|s| - 1]) {
      TrimEndKeepsText(s[..|s| - 1]);
      LastDrops(s);
    }
  }

  lemma {:induction false} LastDrops(s: string)
    requires s != [] && Droppable(s[|s| - 1])
    ensures Kept(s[..|s| - 1]) == Kept(s)
  {
    if |s| > 1 {
      LastDrops(s[1..]);
      assert s[..|s| - 1][1..] == s[1..][..|s| - 2];
    }
  }

  lemma {:induction false} SkipKeepsText(s: string)
    ensures Kept(SkipSpaces(s)) == Kept(s)
  {
    if s != [] && IsSpace(s[0]) { SkipKeepsText(s[1..]); }
  }

  lemma {:induction false} CollapseKeepsText(s: string)
    ensures Kept(Collapse(s)) == Kept(s)
    decreases |s|
  {
    if s != [] {
      var rest := if IsSpace(s[0]) then SkipSpaces(s[1..]) else s[1..];
      SkipKeepsText(s[1..]);
      assert IsSpace(' ');
      hide SkipSpaces, IsSpace;
      CollapseKeepsText(rest);
      assert Collapse(s)[1..] == Collapse(rest);
    }
  }

  lemma {:induction false} DollarsKeepText(s: string)
    ensures Kept(StripDollars(s)) == Kept(s)
  {
    if s != [] {
      if s[0] == '$' && |s| > 1 && IsSpace(s[1]) {
        DollarsKeepText(s[2..]);
        assert s[1..][1..] == s[2..];
      } else {
        DollarsKeepText(s[1..]);
        assert s[0] != '$' ==> StripDollars(s)[1..] == StripDollars(s[1..]);
      }
    }
  }

  lemma {:induction false} CommasKeepText(s: string)
    ensures Kept(StripCommas(s)) == Kept(s)
  {
    if s != [] {
      var grouping := GroupingAt(s);
      var rest := if grouping then s[2..] else s[1..];
      CommasKeepText(rest);
      KeptOfCons(s[0], StripCommas(rest));
      KeptOfCons(s[0], s[1..]);
      assert s == [s[0]] + s[1..];
      if grouping {
        KeptOfCons(',', rest);
        assert s[1..] == [','] + rest;
      }
    }
  }

  /** Nothing but spaces, dollar signs and commas is ever dropped, and nothing moves. */
  lemma NormalizeKeepsText(text: string)
    ensures Kept(Normalize(text)) == Kept(Lower(text))
  {
    var bare := StripDollars(Lower(text));
    DollarsKeepText(Lower(text));
    CommasKeepText(bare);
    CollapseKeepsText(StripCommas(bare));
    SkipKeepsText(Collapse(StripCommas(bare)));
    TrimEndKeepsText(SkipSpaces(Collapse(StripCommas(bare))));
  }

  // ----- Amounts -----

  function ThreeDigits(n: nat): string
    requires n < 1000
  {
    [Digit(n / 100), Digit(n / 10 % 10), Digit(n % 10)]
  }

  /** The numeral with a comma between groups of three digits. */
  function FormatAmount(n: nat): string {
    if n < 1000 then Decimal(n) else FormatAmount(n / 1000) + ([','] + ThreeDigits(n % 1000))
  }

  lemma DecimalByThousands(n: nat)
    requires n >= 1000
    ensures Decimal(n) == Decimal(n / 1000) + ThreeDigits(n % 1000)
  {
    var tens, hundreds := n / 10, n / 10 / 10;
    ThousandsByTens(n);
    assert Decimal(hundreds) == Decimal(n / 1000) + [Digit(hundreds % 10)];
    assert Decimal(tens) == Decimal(hundreds) + [Digit(tens % 10)];
    assert Decimal(n) == Decimal(tens) + [Digit(n % 10)];
  }

  lemma ThousandsByTens(n: nat)
    requires n >= 1000
    ensures n / 10 / 10 / 10 == n / 1000 && n / 10 / 10 >= 10
    ensures n % 1000 / 100 == n / 10 / 10 % 10 && n % 1000 / 10 % 10 == n / 10 % 10 && n % 1000 % 10 == n % 10
  {
    var u, tens := n % 10, n / 10;
    var t, hundreds := tens % 10, tens / 10;
    var h, a := hundreds % 10, hundreds / 10;
    assert n == 1000 * a + 100 * h + 10 * t + u;
    assert n / 1000 == a && n % 1000 == 100 * h + 10 * t + u;
    assert n % 1000 / 100 == h && n % 1000 / 10 == 10 * h + t;
  }

  /** Amounts hold nothing but digits and commas, and start and end with a digit. */
  lemma {:induction false} AmountShape(n: nat)
    ensures var s := FormatAmount(n);
            && s != [] && IsDigit(s[0]) && IsDigit(s[|s| - 1])
            && forall i | 0 <= i < |s| :: IsDigit(s[i]) || s[i] == ','
  {
    DecimalReads(n);
    if n >= 1000 { AmountShape(n / 1000); }
  }

  /** Counted from the right, exactly every fourth character is a comma. */
  lemma {:induction false} AmountIsGrouped(n: nat, i: nat)
    requires i < |FormatAmount(n)|
    ensures FormatAmount(n)[|FormatAmount(n)| - 1 - i] == ',' <==> i % 4 == 3
  {
    DecimalReads(n);
    if n < 1000 {
      ShortNumeral(n);
    } else if i >= 4 {
      AmountIsGrouped(n / 1000, i - 4);
      var s := FormatAmount(n / 1000);
      assert FormatAmount(n)[|FormatAmount(n)| - 1 - i] == s[|s| - 1 - (i - 4)];
    }
  }

  lemma ShortNumeral(n: nat)
    requires n < 1000
    ensures |Decimal(n)| <= 3
  {
    if n >= 10 {
      assert |Decimal(n)| == |Decimal(n / 10)| + 1;
      if n / 10 >= 10 { assert |Decimal(n / 10)| == |Decimal(n / 10 / 10)| + 1 && n / 10 / 10 < 10; }
    }
  }

  lemma {:induction false} RunBeforeComma(s: string, tail: string)
    requires tail != [] && !IsDigit(tail[0])
    ensures DigitRun(s + tail) == DigitRun(s)
  {
    if s == [] {
      assert s + tail == tail;
    } else if IsDigit(s[0]) {
      RunBeforeComma(s[1..], tail);
      assert (s + tail)[1..] == s[1..] + tail;
    }
  }

  lemma {:induction false} DigitsStay(s: string)
    requires AllDigits(s)
    ensures StripCommas(s) == s && DigitRun(s) == |s|
  {
    if s != [] { DigitsStay(s[1..]); }
  }

  /** A last group of three loses its comma, whatever happens before it. */
  lemma {:induction false} LastGroupJoins(s: string, group: string)
    requires s != [] && IsDigit(s[|s| - 1])
    requires |group| == 3 && AllDigits(group)
    ensures StripCommas(s + ([','] + group)) == StripCommas(s) + group
  {
    var tail := [','] + group;
    if |s| == 1 {
      DigitsStay(group);
      LastDigitJoins(s[0], group);
    } else {
      GroupingIgnoresTail(s, tail);
      var rest := if GroupingAt(s) then s[2..] else s[1..];
      if GroupingAt(s) { assert s[2..] != []; }
      LastGroupJoins(rest, group);
    }
  }

  lemma LastDigitJoins(d: char, group: string)
    requires IsDigit(d) && DigitRun(group) == 3
    ensures StripCommas([d] + ([','] + group)) == [d] + StripCommas(group)
  {
    var whole := [d] + ([','] + group);
    assert whole[2..] == group && whole[0] == d && whole[1] == ',';
    assert GroupingAt(whole);
  }

  lemma GroupingIgnoresTail(s: string, tail: string)
    requires |s| >= 2 && tail != [] && !IsDigit(tail[0])
    ensures GroupingAt(s + tail) == GroupingAt(s)
    ensures (s + tail)[1..] == s[1..] + tail && (s + tail)[2..] == s[2..] + tail && (s + tail)[0] == s[0]
  {
    RunBeforeComma(s[2..], tail);
    assert (s + tail)[2..] == s[2..] + tail;
    assert (s + tail)[1] == s[1];
  }

  lemma {:induction false} CommasUndoGrouping(n: nat)
    ensures StripCommas(FormatAmount(n)) == Decimal(n)
  {
    if n < 1000 {
      DecimalReads(n);
      DigitsStay(Decimal(n));
    } else {
      AmountShape(n / 1000);
      CommasUndoGrouping(n / 1000);
      LastGroupJoins(FormatAmount(n / 1000), ThreeDigits(n % 1000));
      DecimalByThousands(n);
    }
  }

  lemma DigitsAreNormal(s: string)
    requires AllDigits(s)
    ensures Normal(s)
  {
    DigitsStay(s);
    DigitsUngrouped(s);
  }

  lemma {:induction false} DigitsUngrouped(s: string)
    requires AllDigits(s)
    ensures Ungrouped(s) && Spaced(s)
  {
    if s != [] { DigitsUngrouped(s[1..]); }
  }

  /** A formatted amount, with or without its dollar sign, normalizes to its plain numeral. */
  lemma AmountNormalizes(n: nat)
    ensures Normalize("$" + FormatAmount(n)) == Decimal(n)
    ensures Normalize(FormatAmount(n)) == Decimal(n)
    ensures Normalize(Decimal(n)) == Decimal(n)
  {
    var amount := FormatAmount(n);
    AmountShape(n);
    assert Plain(amount);
    LowerKeeps(amount);
    DollarsKeep(amount);
    assert Lower("$" + amount) == "$" + amount;
    assert StripDollars("$" + amount) == amount by { assert ("$" + amount)[1..] == amount; }
    CommasUndoGrouping(n);
    DecimalReads(n);
    DigitsAreNormal(Decimal(n));
    CollapseKeeps(Decimal(n));
    NormalIsFixed(Decimal(n));
  }
}
