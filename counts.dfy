/** `extract_affected_count`: seven regular expressions tried in order on the
    lower-cased text with `re.search`; the first that matches anywhere decides, and its
    first group is turned into a number.

    Each expression is matched by hand. Every piece of them is either a literal, an
    alternation of words none of which is a prefix of another, or a run (`\d+`, `\s+`)
    that is followed by a character the run cannot contain; so the backtracking matcher
    can succeed at a given start in one way only, and each piece below returns that one
    end position. */
module Counts {
  import opened Text

  /** End of the longest run of ASCII digits starting at `i`. */
  function DigitRunEnd(t: string, i: nat): (e: nat)
    requires i <= |t|
    decreases |t| - i
    ensures i <= e <= |t|
    ensures forall j :: i <= j < e ==> IsDigit(t[j])
    ensures e == |t| || !IsDigit(t[e])
  {
    if i == |t| || !IsDigit(t[i]) then i else DigitRunEnd(t, i + 1)
  }

  /** End of the longest run of white space starting at `i`. */
  function SpaceRunEnd(t: string, i: nat): (e: nat)
    requires i <= |t|
    decreases |t| - i
    ensures i <= e <= |t|
    ensures forall j :: i <= j < e ==> IsSpace(t[j])
    ensures e == |t| || !IsSpace(t[e])
  {
    if i == |t| || !IsSpace(t[i]) then i else SpaceRunEnd(t, i + 1)
  }

  /** `\s+` at `i`: the end of the run, if the run is not empty. Shorter runs cannot
      help, since every expression continues with a character that is not a space. */
  function Spaces(t: string, i: nat): (r: Option<nat>)
    requires i <= |t|
    ensures r.Some? ==> i < r.value <= |t| && r.value == SpaceRunEnd(t, i)
    ensures r.None? <==> i == |t| || !IsSpace(t[i])
  {
    var e := SpaceRunEnd(t, i);
    if e == i then None else Some(e)
  }

  /** `\d+,?\d*` at `i`, followed by something that is not a digit or a comma. The
      greedy `\d+` takes the whole digit run; if a comma follows, the match can only go
      on through it and the digits after it, and otherwise it ends with the run. */
  function NumberAt(t: string, i: nat): (r: Option<nat>)
    requires i <= |t|
    ensures r.Some? ==> i < r.value <= |t| && NumberShape(t[i..r.value])
    ensures r.None? <==> i == |t| || !IsDigit(t[i])
  {
    if i == |t| || !IsDigit(t[i]) then None
    else
      var e := DigitRunEnd(t, i);
      if e < |t| && t[e] == ',' then
        var e2 := DigitRunEnd(t, e + 1);
        assert NumberShape(t[i..e2]) by {
          assert t[i..e2][e - i] == ',';
          assert forall j :: 0 <= j < e - i ==> IsDigit(t[i..e2][j]);
          assert forall j :: e - i < j < e2 - i ==> IsDigit(t[i..e2][j]);
        }
        Some(e2)
      else
        assert NumberShape(t[i..e]) by {
          assert forall j :: 0 <= j < e - i ==> IsDigit(t[i..e][j]);
        }
        Some(e)
  }

  /** A string `\d+,?\d*` can match: digits, at most one comma, and a digit first. */
  predicate NumberShape(s: string)
  {
    |s| > 0 && IsDigit(s[0])
    && (forall j :: 0 <= j < |s| ==> IsDigit(s[j]) || s[j] == ',')
    && (forall j, j' :: 0 <= j < j' < |s| && s[j] == ',' ==> s[j'] != ',')
  }

  /** A literal at `i`: the position after it. */
  function Literal(w: string, t: string, i: nat): (r: Option<nat>)
    requires i <= |t|
    ensures r.Some? <==> OccursAt(w, t, i)
    ensures r.Some? ==> r.value == i + |w| <= |t|
  {
    if OccursAt(w, t, i) then Some(i + |w|) else None
  }

  /** An alternation of words at `i`: the end of the first alternative that occurs. */
  function AnyWordAt(ws: seq<string>, t: string, i: nat): (r: Option<nat>)
    requires i <= |t|
    ensures r.Some? ==> exists j :: 0 <= j < |ws| && OccursAt(ws[j], t, i) && r.value == i + |ws[j]|
    ensures r.Some? ==> r.value <= |t|
    ensures r.None? ==> forall j :: 0 <= j < |ws| ==> !OccursAt(ws[j], t, i)
  {
    if ws == [] then None
    else if OccursAt(ws[0], t, i) then Some(i + |ws[0]|)
    else
      var r := AnyWordAt(ws[1..], t, i);
      assert forall j :: 1 <= j < |ws| ==> ws[j] == ws[1..][j - 1];
      r
  }

  const Nouns := ["families", "households", "people", "residents", "persons", "individuals"]
  const Multitudes := ["hundreds", "thousands", "millions"]
  const Groups := ["families", "households", "people", "residents"]
  const Outcomes := ["evicted", "displaced", "affected", "homeless"]
  const Moves := ["evacuated", "relocated", "moved"]

  /** The span of the first group. */
  datatype Span = Span(lo: nat, hi: nat)

  /** Pattern 1, `(\d+,?\d*)\s+(families|households|people|residents|persons|individuals)`. */
  function Pattern1(t: string, i: nat): Option<Span>
    requires i <= |t|
  {
    match NumberAt(t, i)
    case None => None
    case Some(e) =>
      match Spaces(t, e)
      case None => None
      case Some(s) => if AnyWordAt(Nouns, t, s).Some? then Some(Span(i, e)) else None
  }

  /** `(?:of\s+)?(families|households|people|residents)` at `s`, which follows a run of
      spaces: either `of`, spaces and a word, or the word alone. */
  predicate OfGroup(t: string, s: nat)
    requires s <= |t|
  {
    (match Literal("of", t, s)
     case None => false
     case Some(o) =>
       match Spaces(t, o)
       case None => false
       case Some(s2) => AnyWordAt(Groups, t, s2).Some?)
    || AnyWordAt(Groups, t, s).Some?
  }

  /** Pattern 2, `(hundreds|thousands|millions)\s+(?:of\s+)?(families|households|people|residents)`. */
  function Pattern2(t: string, i: nat): Option<Span>
    requires i <= |t|
  {
    match AnyWordAt(Multitudes, t, i)
    case None => None
    case Some(e) =>
      match Spaces(t, e)
      case None => None
      case Some(s) => if OfGroup(t, s) then Some(Span(i, e)) else None
  }

  /** Pattern 3, `(\d+,?\d*)\s+were\s+(evicted|displaced|affected|homeless)`. */
  function Pattern3(t: string, i: nat): Option<Span>
    requires i <= |t|
  {
    match NumberAt(t, i)
    case None => None
    case Some(e) =>
      match Spaces(t, e)
      case None => None
      case Some(s) =>
        match Literal("were", t, s)
        case None => None
        case Some(w) =>
          match Spaces(t, w)
          case None => None
          case Some(s2) => if AnyWordAt(Outcomes, t, s2).Some? then Some(Span(i, e)) else None
  }

  /** `\s+(\d+,?\d*)\s+people` after a leading literal that ends at `k`. */
  function NumberThenPeople(t: string, k: nat): Option<Span>
    requires k <= |t|
  {
    match Spaces(t, k)
    case None => None
    case Some(s) =>
      match NumberAt(t, s)
      case None => None
      case Some(e) =>
        match Spaces(t, e)
        case None => None
        case Some(s2) => if OccursAt("people", t, s2) then Some(Span(s, e)) else None
  }

  /** Pattern 4, `over\s+(\d+,?\d*)\s+people`. */
  function Pattern4(t: string, i: nat): Option<Span>
    requires i <= |t|
  {
    match Literal("over", t, i)
    case None => None
    case Some(k) => NumberThenPeople(t, k)
  }

  /** Pattern 5, `more than\s+(\d+,?\d*)\s+people`. */
  function Pattern5(t: string, i: nat): Option<Span>
    requires i <= |t|
  {
    match Literal("more than", t, i)
    case None => None
    case Some(k) => NumberThenPeople(t, k)
  }

  /** Pattern 6, `(\d+,?\d*)\s+to\s+(\d+,?\d*)\s+people`; the first group is the lower
      bound. */
  function Pattern6(t: string, i: nat): Option<Span>
    requires i <= |t|
  {
    match NumberAt(t, i)
    case None => None
    case Some(e) =>
      match Spaces(t, e)
      case None => None
      case Some(s) =>
        match Literal("to", t, s)
        case None => None
        case Some(k) => if NumberThenPeople(t, k).Some? then Some(Span(i, e)) else None
  }

  /** Pattern 7, `(\d+)\s+(evacuated|relocated|moved)`. */
  function Pattern7(t: string, i: nat): Option<Span>
    requires i <= |t|
  {
    if i == |t| || !IsDigit(t[i]) then None
    else
      var e := DigitRunEnd(t, i);
      match Spaces(t, e)
      case None => None
      case Some(s) => if AnyWordAt(Moves, t, s).Some? then Some(Span(i, e)) else None
  }

  const PatternCount := 7

  /** Pattern `k` (0-based, in list order) matches `t` at `i`, with the span of its
      first group. */
  function MatchAt(k: nat, t: string, i: nat): (r: Option<Span>)
    requires k < PatternCount && i <= |t|
    ensures r.Some? ==> r.value.lo < r.value.hi <= |t|
  {
    match k
    case 0 => Pattern1(t, i)
    case 1 => Pattern2(t, i)
    case 2 => Pattern3(t, i)
    case 3 => Pattern4(t, i)
    case 4 => Pattern5(t, i)
    case 5 => Pattern6(t, i)
    case 6 => Pattern7(t, i)
  }

  /** The first group of a match is a number, or for pattern 2 one of the three
      multitude words. */
  lemma MatchShape(k: nat, t: string, i: nat)
    requires k < PatternCount && i <= |t| && MatchAt(k, t, i).Some?
    ensures var sp := MatchAt(k, t, i).value;
      && (k != 1 ==> NumberShape(t[sp.lo..sp.hi]))
      && (k == 1 ==> t[sp.lo..sp.hi] in Multitudes)
  {
    var sp := MatchAt(k, t, i).value;
    if k == 1 {
      var j :| 0 <= j < |Multitudes| && OccursAt(Multitudes[j], t, i) && sp.hi == i + |Multitudes[j]|;
      assert t[i..sp.hi] == Multitudes[j];
    } else if k == 6 {
      assert forall j :: 0 <= j < sp.hi - sp.lo ==> IsDigit(t[sp.lo..sp.hi][j]);
    }
  }

  /** The starts at which pattern `k` matches `t`. */
  function Starts(k: nat, t: string): nat -> bool
    requires k < PatternCount
  {
    (i: nat) => i <= |t| && MatchAt(k, t, i).Some?
  }

  /** The least `i` from `from` up to `n` that satisfies `f`. */
  function Leftmost(f: nat -> bool, from: nat, n: nat): (r: Option<nat>)
    decreases n + 1 - from
    ensures r.Some? ==> from <= r.value <= n && f(r.value)
    ensures r.Some? ==> forall j :: from <= j < r.value ==> !f(j)
    ensures r.None? ==> forall j :: from <= j <= n ==> !f(j)
  {
    if from > n then None
    else if f(from) then Some(from)
    else Leftmost(f, from + 1, n)
  }

  /** `re.search`: the leftmost start, from `from` on, where pattern `k` matches. */
  function Search(k: nat, t: string, from: nat): Option<nat>
    requires k < PatternCount
  {
    Leftmost(Starts(k, t), from, |t|)
  }

  /** The search finds a start where the pattern matches, before which it matches
      nowhere, and finds nothing only when the pattern matches nowhere. */
  lemma SearchSpec(k: nat, t: string, from: nat)
    requires k < PatternCount
    ensures Search(k, t, from).Some? ==>
              from <= Search(k, t, from).value <= |t| && MatchAt(k, t, Search(k, t, from).value).Some?
    ensures Search(k, t, from).Some? ==>
              forall j :: from <= j < Search(k, t, from).value ==> MatchAt(k, t, j).None?
    ensures Search(k, t, from).None? ==> forall j :: from <= j <= |t| ==> MatchAt(k, t, j).None?
  {
    var f := Starts(k, t);
    var r := Leftmost(f, from, |t|);
    if r.Some? {
      assert f(r.value);
      forall j | from <= j < r.value ensures MatchAt(k, t, j).None? {
        assert !f(j);
      }
    } else {
      forall j | from <= j <= |t| ensures MatchAt(k, t, j).None? {
        assert !f(j);
      }
    }
  }

  /** The text of the first group of pattern `k`'s leftmost match. */
  function Group(k: nat, t: string): (g: string)
    requires k < PatternCount && Search(k, t, 0).Some?
    ensures k != 1 ==> NumberShape(g)
    ensures k == 1 ==> g in Multitudes
  {
    SearchSpec(k, t, 0);
    var sp := MatchAt(k, t, Search(k, t, 0).value).value;
    MatchShape(k, t, Search(k, t, 0).value);
    t[sp.lo..sp.hi]
  }

  /** `str.isdigit()`, for ASCII digits. */
  predicate IsDigitString(s: string)
  {
    |s| > 0 && AllDigits(s)
  }

  /** The branches that turn a group into a number; `None` when none applies, in which
      case the next pattern is tried. */
  function GroupValue(g: string): Option<nat>
  {
    var plain := RemoveCommas(g);
    if IsDigitString(plain) then Some(DecimalValue(plain))
    else if g == "hundreds" then Some(300)
    else if g == "thousands" then Some(2000)
    else if g == "millions" then Some(100000)
    else None
  }

  /** One turn of the loop: the value pattern `k` gives, or `None` when the loop moves
      on to the next pattern (no match, or a group no branch accepts). */
  function PatternValue(k: nat, t: string): (r: Option<nat>)
    requires k < PatternCount
    ensures r.Some? <==> Search(k, t, 0).Some?
  {
    match Search(k, t, 0)
    case None => None
    case Some(_) =>
      GroupAlwaysValued(k, t);
      GroupValue(Group(k, t))
  }

  /** The loop over the patterns, from pattern `k` on. */
  function FromPattern(t: string, k: nat): Option<nat>
    requires k <= PatternCount
    decreases PatternCount - k
  {
    if k == PatternCount then None
    else
      match PatternValue(k, t)
      case Some(v) => Some(v)
      case None => FromPattern(t, k + 1)
  }

  /** Pattern `k` is the first in list order to match anywhere in `t`. */
  predicate IsFirstPattern(t: string, k: nat)
  {
    k < PatternCount && Search(k, t, 0).Some?
    && forall j :: 0 <= j < k ==> Search(j, t, 0).None?
  }

  /** None of the seven patterns matches anywhere in `t`. */
  predicate NoPatternMatches(t: string)
  {
    forall k :: 0 <= k < PatternCount ==> Search(k, t, 0).None?
  }

  function ExtractAffectedCount(text: string): (r: Option<nat>)
    ensures text == "" ==> r.None?
    ensures text != "" ==>
              forall k :: IsFirstPattern(Lower(text), k) ==> r == GroupValue(Group(k, Lower(text)))
    ensures text != "" ==> (r.None? <==> NoPatternMatches(Lower(text)))
  {
    if text == "" then None
    else
      var t := Lower(text);
      FromPatternSpec(t);
      FromPattern(t, 0)
  }

  /** The loop returns the value of the first pattern that matches, and nothing only
      when no pattern matches. */
  lemma FromPatternSpec(t: string)
    ensures forall k :: IsFirstPattern(t, k) ==> FromPattern(t, 0) == GroupValue(Group(k, t))
    ensures FromPattern(t, 0).None? <==> NoPatternMatches(t)
  {
    FromPatternNone(t, 0);
    forall k | IsFirstPattern(t, k) ensures FromPattern(t, 0) == GroupValue(Group(k, t)) {
      FromPatternFirst(t, 0, k);
    }
  }

  /** Removing the comma from a number leaves a non-empty string of digits. */
  lemma {:induction false} RemoveCommasOfNumber(s: string)
    requires forall j :: 0 <= j < |s| ==> IsDigit(s[j]) || s[j] == ','
    ensures AllDigits(RemoveCommas(s))
    ensures |s| > 0 && IsDigit(s[0]) ==> |RemoveCommas(s)| > 0
  {
    if s != [] {
      RemoveCommasOfNumber(s[1..]);
      assert RemoveCommas(s) == (if s[0] == ',' then [] else [s[0]]) + RemoveCommas(s[1..]);
    }
  }

  /** Every group the seven patterns can capture has a value, so the fall-through path
      (no branch taken, next pattern tried) is never reached. */
  lemma GroupAlwaysValued(k: nat, t: string)
    requires k < PatternCount && Search(k, t, 0).Some?
    ensures GroupValue(Group(k, t)).Some?
  {
    var g := Group(k, t);
    if k != 1 {
      NumberHasValue(g);
    } else {
      MultitudeHasValue(g);
    }
  }

  /** A number's value is the decimal value of its digits, the comma dropped. */
  lemma NumberHasValue(g: string)
    requires NumberShape(g)
    ensures AllDigits(RemoveCommas(g))
    ensures GroupValue(g) == Some(DecimalValue(RemoveCommas(g)))
  {
    RemoveCommasOfNumber(g);
  }

  lemma MultitudeHasValue(g: string)
    requires g in Multitudes
    ensures GroupValue(g).Some?
  {
    WordNotNumber(g);
  }

  /** A word that starts with a letter and has no comma is not a digit string. */
  lemma WordNotNumber(g: string)
    requires |g| > 0 && IsLetter(g[0]) && ',' !in g
    ensures !IsDigitString(RemoveCommas(g))
  {
    RemoveCommasNoComma(g);
  }

  lemma {:induction false} RemoveCommasNoComma(s: string)
    requires ',' !in s
    ensures RemoveCommas(s) == s
  {
    if s != [] {
      assert ',' !in s[1..];
      RemoveCommasNoComma(s[1..]);
    }
  }

  /** One turn of the pattern loop ends it with `None` exactly when pattern `k` does
      not match and the rest of the loop ends with `None`. */
  lemma FromPatternStep(t: string, k: nat)
    requires k < PatternCount
    ensures FromPattern(t, k).None? <==> Search(k, t, 0).None? && FromPattern(t, k + 1).None?
  {
  }

  /** No pattern from `k` on matches anywhere in `t`. */
  predicate NoneFrom(t: string, k: nat)
  {
    forall j :: k <= j < PatternCount ==> Search(j, t, 0).None?
  }

  lemma NoneFromStep(t: string, k: nat)
    requires k < PatternCount
    ensures NoneFrom(t, k) <==> Search(k, t, 0).None? && NoneFrom(t, k + 1)
  {
    if Search(k, t, 0).None? && NoneFrom(t, k + 1) {
      forall j | k <= j < PatternCount ensures Search(j, t, 0).None? {
        if j > k {
          assert k + 1 <= j;
        }
      }
    }
  }

  /** The pattern loop returns `None` only when no pattern matches. */
  lemma {:induction false} FromPatternNone(t: string, k: nat)
    requires k <= PatternCount
    decreases PatternCount - k
    ensures FromPattern(t, k).None? <==> NoneFrom(t, k)
  {
    if k < PatternCount {
      FromPatternNone(t, k + 1);
      FromPatternStep(t, k);
      NoneFromStep(t, k);
    }
  }

  /** The pattern loop returns the value of the first pattern that matches. */
  lemma {:induction false} FromPatternFirst(t: string, k: nat, k': nat)
    requires k <= k' < PatternCount && Search(k', t, 0).Some?
    requires forall j :: k <= j < k' ==> Search(j, t, 0).None?
    decreases k' - k
    ensures FromPattern(t, k) == GroupValue(Group(k', t))
  {
    if k < k' {
      FromPatternSkip(t, k);
      FromPatternFirst(t, k + 1, k');
    } else {
      FromPatternHere(t, k);
    }
  }

  /** A pattern that matches nowhere passes the loop on to the next one. */
  lemma FromPatternSkip(t: string, k: nat)
    requires k < PatternCount && Search(k, t, 0).None?
    ensures FromPattern(t, k) == FromPattern(t, k + 1)
  {
  }

  /** A pattern that matches ends the loop with the value of its group. */
  lemma FromPatternHere(t: string, k: nat)
    requires k < PatternCount && Search(k, t, 0).Some?
    ensures FromPattern(t, k) == GroupValue(Group(k, t))
  {
    assert PatternValue(k, t) == GroupValue(Group(k, t));
  }

  /** `\s+(\d+,?\d*)\s+people` contains a match of pattern 1 at its number. */
  lemma NumberThenPeopleHasPattern1(t: string, k: nat)
    requires k <= |t| && NumberThenPeople(t, k).Some?
    ensures MatchAt(0, t, NumberThenPeople(t, k).value.lo).Some?
  {
    var s := Spaces(t, k).value;
    var e := NumberAt(t, s).value;
    var s2 := Spaces(t, e).value;
    assert Nouns[2] == "people" && OccursAt(Nouns[2], t, s2);
  }

  /** Patterns 4, 5 and 6 (`over N people`, `more than N people`, `N to M people`) each
      contain a match of pattern 1, which is tried first: they never decide the count,
      and `10 to 20 people` counts 20. */
  lemma LaterNumberPatternsShadowed(t: string, k: nat)
    requires 3 <= k <= 5 && Search(k, t, 0).Some?
    ensures Search(0, t, 0).Some?
  {
    if k == 5 {
      SearchSpec(5, t, 0);
      RangeHasPattern1(t, Search(5, t, 0).value);
    } else if k == 4 {
      SearchSpec(4, t, 0);
      LeadHasPattern1(t, "more than", Search(4, t, 0).value);
    } else {
      SearchSpec(3, t, 0);
      LeadHasPattern1(t, "over", Search(3, t, 0).value);
    }
    var lo: nat :| lo <= |t| && MatchAt(0, t, lo).Some?;
    SearchSpec(0, t, 0);
  }

  /** A match of pattern 6 holds a match of pattern 1 at its second number. */
  lemma RangeHasPattern1(t: string, i: nat)
    requires i <= |t| && Pattern6(t, i).Some?
    ensures exists lo: nat :: lo <= |t| && MatchAt(0, t, lo).Some?
  {
    var e := NumberAt(t, i).value;
    var s := Spaces(t, e).value;
    var kk := Literal("to", t, s).value;
    NumberThenPeopleHasPattern1(t, kk);
  }

  /** A match of pattern 4 or 5 holds a match of pattern 1 at its number. */
  lemma LeadHasPattern1(t: string, w: string, i: nat)
    requires i <= |t| && Literal(w, t, i).Some? && NumberThenPeople(t, Literal(w, t, i).value).Some?
    ensures exists lo: nat :: lo <= |t| && MatchAt(0, t, lo).Some?
  {
    NumberThenPeopleHasPattern1(t, Literal(w, t, i).value);
  }

  /** Hence the first matching pattern is always pattern 1, 2, 3 or 7. */
  lemma DecidingPatterns(t: string, k: nat)
    requires IsFirstPattern(t, k)
    ensures k == 0 || k == 1 || k == 2 || k == 6
  {
    if 3 <= k <= 5 {
      LaterNumberPatternsShadowed(t, k);
    }
  }

  /** The patterns that begin with a number match only where a digit stands. */
  lemma NumberPatternStartsWithDigit(k: nat, t: string, i: nat)
    requires k in {0, 2, 5, 6} && i <= |t|
    requires MatchAt(k, t, i).Some?
    ensures i < |t| && IsDigit(t[i])
  {
  }

  /** When pattern 1 first matches at `i` in a text with no upper-case letter, the
      count is the value of its group. */
  lemma FirstPattern1(t: string, i: nat, sp: Span)
    requires NoUpper(t) && i <= |t| && MatchAt(0, t, i) == Some(sp)
    requires forall j :: 0 <= j < i ==> MatchAt(0, t, j).None?
    ensures ExtractAffectedCount(t) == GroupValue(t[sp.lo..sp.hi])
  {
    LowerOfNoUpper(t);
    SearchFindsAt(0, t, i);
    assert IsFirstPattern(t, 0);
  }

  /** `re.search` returns the first start where the pattern matches. */
  lemma SearchFindsAt(k: nat, t: string, i: nat)
    requires k < PatternCount && i <= |t| && MatchAt(k, t, i).Some?
    requires forall j :: 0 <= j < i ==> MatchAt(k, t, j).None?
    ensures Search(k, t, 0) == Some(i)
  {
    var f := Starts(k, t);
    assert f(i);
    forall j | 0 <= j < i ensures !f(j) {
      assert MatchAt(k, t, j).None?;
    }
    LeftmostAt(f, 0, |t|, i);
  }

  lemma {:induction false} LeftmostAt(f: nat -> bool, from: nat, n: nat, i: nat)
    requires from <= i <= n && f(i)
    requires forall j :: from <= j < i ==> !f(j)
    decreases i - from
    ensures Leftmost(f, from, n) == Some(i)
  {
    if from < i {
      LeftmostAt(f, from + 1, n, i);
    }
  }

  lemma NoNumberNoMatch(k: nat, t: string, i: nat)
    requires k in {0, 2, 5, 6} && i <= |t|
    requires i == |t| || !IsDigit(t[i])
    ensures MatchAt(k, t, i).None?
  {
  }

  /** Digits, one space and a noun of pattern 1 make a match of pattern 1. */
  lemma Pattern1Here(t: string, i: nat, e: nat, j: nat)
    requires i < e < |t| && t[e] == ' ' && j < |Nouns|
    requires NumberAt(t, i) == Some(e)
    requires OccursAt(Nouns[j], t, e + 1)
    ensures MatchAt(0, t, i) == Some(Span(i, e))
  {
    assert t[e + 1] == Nouns[j][0];
    assert 'a' <= t[e + 1] <= 'z';
    assert SpaceRunEnd(t, e + 1) == e + 1;
    assert SpaceRunEnd(t, e) == e + 1;
    assert AnyWordAt(Nouns, t, e + 1).Some?;
  }

  /** A count of people written as digits, with no digit anywhere before it, is that
      number. */
  lemma LeadingNumberOfPeople(t: string, i: nat, e: nat, j: nat)
    requires NoUpper(t) && i < e < |t| && t[e] == ' ' && j < |Nouns|
    requires forall c :: 0 <= c < i ==> !IsDigit(t[c])
    requires forall c :: i <= c < e ==> IsDigit(t[c])
    requires OccursAt(Nouns[j], t, e + 1)
    ensures AllDigits(t[i..e])
    ensures ExtractAffectedCount(t) == Some(DecimalValue(t[i..e]))
  {
    assert forall c :: 0 <= c < e - i ==> t[i..e][c] == t[i + c];
    PlainNumberAt(t, i, e);
    Pattern1Here(t, i, e, j);
    forall c | 0 <= c < i ensures MatchAt(0, t, c).None? {
      NoNumberNoMatch(0, t, c);
    }
    FirstPattern1(t, i, Span(i, e));
    NumberHasValue(t[i..e]);
    RemoveCommasOfDigits(t[i..e]);
  }

  /** A digit run ended by a character other than a digit or a comma is a number. */
  lemma PlainNumberAt(t: string, j: nat, e: nat)
    requires j < e < |t| && !IsDigit(t[e]) && t[e] != ','
    requires forall c :: j <= c < e ==> IsDigit(t[c])
    ensures NumberAt(t, j) == Some(e)
  {
    assert DigitRunEnd(t, j) == e;
  }

  /** A digit run, a comma and a second digit run make one number. */
  lemma CommaNumberAt(t: string, j: nat, e: nat, e2: nat)
    requires j < e < e2 <= |t| && t[e] == ','
    requires forall c :: j <= c < e ==> IsDigit(t[c])
    requires forall c :: e < c < e2 ==> IsDigit(t[c])
    requires e2 == |t| || !IsDigit(t[e2])
    ensures NumberAt(t, j) == Some(e2)
  {
    assert DigitRunEnd(t, j) == e;
    assert DigitRunEnd(t, e + 1) == e2;
  }

  /** A number followed by spaces and a word that no noun of pattern 1 begins with is no
      match of pattern 1. */
  lemma NoNounNoPattern1(t: string, j: nat, e: nat)
    requires j <= |t| && NumberAt(t, j) == Some(e)
    requires e + 1 < |t| && IsSpace(t[e]) && !IsSpace(t[e + 1])
    requires forall n :: 0 <= n < |Nouns| ==> Nouns[n][0] != t[e + 1]
    ensures MatchAt(0, t, j).None?
  {
    assert SpaceRunEnd(t, e + 1) == e + 1;
    assert SpaceRunEnd(t, e) == e + 1;
    assert AnyWordAt(Nouns, t, e + 1).None?;
  }

  /** A number not followed by white space is no match of pattern 1. */
  lemma NoSpaceNoPattern1(t: string, j: nat, e: nat)
    requires j <= |t| && NumberAt(t, j) == Some(e)
    requires e < |t| && !IsSpace(t[e])
    ensures MatchAt(0, t, j).None?
  {
  }

  /** `A to B people` with digit strings `A` (ending before `n`) and `B` (from `n + 4`
      to `e`), and no upper-case letter. */
  predicate RangeShape(t: string, n: nat, e: nat)
  {
    0 < n && n + 4 < e && e + 7 <= |t| && NoUpper(t)
    && (forall c :: 0 <= c < n ==> IsDigit(t[c]))
    && t[n] == ' ' && t[n + 1] == 't' && t[n + 2] == 'o' && t[n + 3] == ' '
    && (forall c :: n + 4 <= c < e ==> IsDigit(t[c]))
    && t[e] == ' ' && OccursAt("people", t, e + 1)
  }

  lemma RangeMatch(t: string, n: nat, e: nat)
    requires RangeShape(t, n, e)
    ensures ExtractAffectedCount(t) == GroupValue(t[n + 4..e])
  {
    forall c | 0 <= c < n + 4 ensures MatchAt(0, t, c).None? {
      if c < n {
        PlainNumberAt(t, c, n);
        NoNounNoPattern1(t, c, n);
      } else {
        NoNumberNoMatch(0, t, c);
      }
    }
    PlainNumberAt(t, n + 4, e);
    Pattern1Here(t, n + 4, e, 2);
    FirstPattern1(t, n + 4, Span(n + 4, e));
  }

  /** A range `A to B people` counts the upper bound `B`: pattern 1 finds `B people`
      before the range pattern, whose group is `A`, is tried. */
  lemma RangeCountsUpperBound(t: string, n: nat, e: nat)
    requires RangeShape(t, n, e)
    ensures AllDigits(t[n + 4..e])
    ensures ExtractAffectedCount(t) == Some(DecimalValue(t[n + 4..e]))
  {
    var b := t[n + 4..e];
    assert forall c :: 0 <= c < |b| ==> b[c] == t[n + 4 + c];
    RangeMatch(t, n, e);
    NumberHasValue(b);
    RemoveCommasOfDigits(b);
  }

  /** `A,B,C people` with digit strings `A` (ending at comma `n`), `B` (ending at comma
      `e`) and `C` (ending at `e2`), and no upper-case letter. */
  predicate TwoCommasShape(t: string, n: nat, e: nat, e2: nat)
  {
    0 < n && n + 1 < e && e + 1 < e2 && e2 + 7 <= |t| && NoUpper(t)
    && (forall k :: 0 <= k < n ==> IsDigit(t[k]))
    && t[n] == ',' && t[e] == ','
    && (forall k :: n < k < e ==> IsDigit(t[k]))
    && (forall k :: e < k < e2 ==> IsDigit(t[k]))
    && t[e2] == ' ' && OccursAt("people", t, e2 + 1)
  }

  lemma TwoCommasMatch(t: string, n: nat, e: nat, e2: nat)
    requires TwoCommasShape(t, n, e, e2)
    ensures ExtractAffectedCount(t) == GroupValue(t[n + 1..e2])
  {
    forall k | 0 <= k < n + 1 ensures MatchAt(0, t, k).None? {
      if k < n {
        CommaNumberAt(t, k, n, e);
        NoSpaceNoPattern1(t, k, e);
      } else {
        NoNumberNoMatch(0, t, k);
      }
    }
    CommaNumberAt(t, n + 1, e, e2);
    Pattern1Here(t, n + 1, e2, 2);
    FirstPattern1(t, n + 1, Span(n + 1, e2));
  }

  /** `\d+,?\d*` admits one comma only, so in `A,B,C people` the leftmost match starts
      at `B`, and the count is the value of `B` and `C` written together. */
  lemma TwoCommasDropLeadingGroup(t: string, n: nat, e: nat, e2: nat)
    requires TwoCommasShape(t, n, e, e2)
    ensures AllDigits(t[n + 1..e]) && AllDigits(t[e + 1..e2])
    ensures AllDigits(t[n + 1..e] + t[e + 1..e2])
    ensures ExtractAffectedCount(t) == Some(DecimalValue(t[n + 1..e] + t[e + 1..e2]))
  {
    var b, c := t[n + 1..e], t[e + 1..e2];
    assert AllDigits(b) by {
      assert forall k :: 0 <= k < |b| ==> b[k] == t[n + 1 + k];
    }
    assert AllDigits(c) by {
      assert forall k :: 0 <= k < |c| ==> c[k] == t[e + 1 + k];
    }
    calc {
      ExtractAffectedCount(t);
    == { TwoCommasMatch(t, n, e, e2); }
      GroupValue(t[n + 1..e2]);
    == { SliceAround(t, n + 1, e, e2); }
      GroupValue(b + "," + c);
    == { NumberHasValue(b + "," + c); RemoveCommaBetween(b, c); }
      Some(DecimalValue(b + c));
    }
  }

  lemma RemoveCommaBetween(b: string, c: string)
    requires AllDigits(b) && AllDigits(c)
    ensures RemoveCommas(b + "," + c) == b + c
  {
    assert |","| == 1 && ","[0] == ',' && ","[1..] == [];
    assert RemoveCommas(",") == [];
    calc {
      RemoveCommas(b + "," + c);
    == { RemoveCommasAppend(b + ",", c); }
      RemoveCommas(b + ",") + RemoveCommas(c);
    == { RemoveCommasAppend(b, ","); }
      RemoveCommas(b) + RemoveCommas(c);
    == { RemoveCommasOfDigits(b); RemoveCommasOfDigits(c); }
      b + c;
    }
  }

  /** The layout of `10 to 20 people`: a range whose upper bound reads 20. */
  lemma TenToTwentyLayout(t: string)
    requires t == "10 to 20 people"
    ensures RangeShape(t, 2, 8) && DecimalValue(t[6..8]) == 20
  {
    assert OccursAt("people", t, 9);
    TwoDigits(t, 6);
  }

  /** `10 to 20 people` counts 20. */
  lemma TenToTwentyPeople(t: string)
    requires t == "10 to 20 people"
    ensures ExtractAffectedCount(t) == Some(20)
  {
    TenToTwentyLayout(t);
    RangeCountsUpperBound(t, 2, 8);
  }

  /** The layout of `12,345,678 people`: two comma groups and then `people`. */
  lemma SeparatedLayout(t: string)
    requires t == "12,345,678 people"
    ensures TwoCommasShape(t, 2, 6, 10)
  {
    assert OccursAt("people", t, 11);
  }

  /** Its two trailing groups read 345 and 678. */
  lemma SeparatedGroups(t: string)
    requires t == "12,345,678 people"
    ensures AllDigits(t[3..6]) && AllDigits(t[7..10])
    ensures DecimalValue(t[3..6]) == 345 && DecimalValue(t[7..10]) == 678
  {
    ThreeDigits(t, 3);
    ThreeDigits(t, 7);
  }

  /** `12,345,678 people` counts 345678: the leading group is dropped. */
  lemma SeparatedThousands(t: string)
    requires t == "12,345,678 people"
    ensures ExtractAffectedCount(t) == Some(345678)
  {
    SeparatedLayout(t);
    SeparatedGroups(t);
    TwoCommasDropLeadingGroup(t, 2, 6, 10);
    var x, y := t[3..6], t[7..10];
    DecimalValueAppend(x, y);
    assert Pow10(|y|) == 1000;
  }

  /** The word a pattern-2 match starts with gives the count, when no digit occurs in
      the text (so that pattern 1 cannot match). */
  lemma FirstPattern2(t: string, i: nat, sp: Span)
    requires NoUpper(t) && i <= |t|
    requires forall c :: 0 <= c < |t| ==> !IsDigit(t[c])
    requires MatchAt(1, t, i) == Some(sp)
    requires forall j :: 0 <= j < i ==> MatchAt(1, t, j).None?
    ensures ExtractAffectedCount(t) == GroupValue(t[sp.lo..sp.hi])
  {
    LowerOfNoUpper(t);
    forall j | 0 <= j <= |t| ensures MatchAt(0, t, j).None? {
      NoNumberNoMatch(0, t, j);
    }
    SearchFindsAt(1, t, i);
    assert IsFirstPattern(t, 1);
  }

  /** A multitude word, one space, `of`, one space and a group noun make a match of
      pattern 2 at the start. */
  lemma MultitudeOfGroup(t: string, m: nat, g: nat)
    requires m < |Multitudes| && g < |Groups|
    requires OccursAt(Multitudes[m], t, 0)
    requires forall j :: 0 <= j < |Multitudes| && j != m ==> Multitudes[j][0] != t[0]
    requires var n := |Multitudes[m]|;
      && n + 4 < |t| && t[n] == ' ' && OccursAt("of", t, n + 1) && t[n + 3] == ' '
      && OccursAt(Groups[g], t, n + 4)
    ensures MatchAt(1, t, 0) == Some(Span(0, |Multitudes[m]|))
  {
    var n := |Multitudes[m]|;
    OnlyWordAtStart(Multitudes, t, m);
    assert t[n + 1] == "of"[0] == 'o';
    assert SpaceRunEnd(t, n + 1) == n + 1;
    assert SpaceRunEnd(t, n) == n + 1;
    OfGroupAt(t, n + 1, g);
  }

  /** The only word of `ws` whose first character opens `t` is the one found there. */
  lemma OnlyWordAtStart(ws: seq<string>, t: string, m: nat)
    requires m < |ws| && OccursAt(ws[m], t, 0)
    requires |t| > 0 && forall j :: 0 <= j < |ws| && j != m ==> |ws[j]| > 0 && ws[j][0] != t[0]
    ensures AnyWordAt(ws, t, 0) == Some(|ws[m]|)
  {
    var r := AnyWordAt(ws, t, 0);
    var j :| 0 <= j < |ws| && OccursAt(ws[j], t, 0) && r.value == |ws[j]|;
  }

  /** `of`, one space and a group noun at `s`. */
  lemma OfGroupAt(t: string, s: nat, g: nat)
    requires g < |Groups| && s + 3 < |t|
    requires OccursAt("of", t, s) && t[s + 2] == ' ' && OccursAt(Groups[g], t, s + 3)
    ensures OfGroup(t, s)
  {
    assert t[s + 3] == Groups[g][0];
    assert SpaceRunEnd(t, s + 3) == s + 3;
    assert SpaceRunEnd(t, s + 2) == s + 3;
  }

  /** The report `thousands of residents`, written in three parts, has no digit and no
      upper-case letter. */
  lemma ThousandsPlain(t: string)
    requires t == "thousands" + " of " + "residents"
    ensures |t| == 22 && NoUpper(t) && forall c :: 0 <= c < |t| ==> !IsDigit(t[c])
  {
    var p, m, q := "thousands", " of ", "residents";
    Concat3(p, m, q);
    assert NoUpper(p) && NoUpper(m) && NoUpper(q);
    NoUpperAppend(p, m);
    NoUpperAppend(p + m, q);
    assert forall c :: 0 <= c < |p| ==> !IsDigit(p[c]);
    assert forall c :: 0 <= c < |m| ==> !IsDigit(m[c]);
    assert forall c :: 0 <= c < |q| ==> !IsDigit(q[c]);
  }

  /** It is a word, a space, `of`, a space and another word. */
  lemma ThousandsLayout(t: string)
    requires t == "thousands" + " of " + "residents"
    ensures |t| == 22 && t[0] == 't'
    ensures OccursAt("thousands", t, 0) && t[9] == ' ' && OccursAt("of", t, 10)
    ensures t[12] == ' ' && OccursAt("residents", t, 13)
  {
    var p, m, q := "thousands", " of ", "residents";
    OccursInConcat3(p, m, q);
    assert t[0] == p[0];
    assert t[9] == m[0] && t[10] == m[1] && t[11] == m[2] && t[12] == m[3];
  }

  /** The table entries the report uses. */
  lemma ThousandsWords()
    ensures |Multitudes| == 3 && Multitudes[1] == "thousands" && Groups[3] == "residents"
    ensures Multitudes[0][0] == 'h' && Multitudes[2][0] == 'm'
  {
  }

  /** `thousands of residents` counts 2000. */
  lemma ThousandsOfResidents(t: string)
    requires t == "thousands" + " of " + "residents"
    ensures ExtractAffectedCount(t) == Some(2000)
  {
    ThousandsPlain(t);
    ThousandsLayout(t);
    ThousandsWords();
    MultitudeCount(t, 1, 3);
  }

  /** A text with no digit and no upper-case letter that opens with a multitude word,
      `of` and a group noun counts what that word stands for. */
  lemma MultitudeCount(t: string, m: nat, g: nat)
    requires NoUpper(t) && forall c :: 0 <= c < |t| ==> !IsDigit(t[c])
    requires m < |Multitudes| && g < |Groups|
    requires OccursAt(Multitudes[m], t, 0)
    requires forall j :: 0 <= j < |Multitudes| && j != m ==> Multitudes[j][0] != t[0]
    requires var n := |Multitudes[m]|;
      && n + 4 < |t| && t[n] == ' ' && OccursAt("of", t, n + 1) && t[n + 3] == ' '
      && OccursAt(Groups[g], t, n + 4)
    ensures ExtractAffectedCount(t) == Some([300, 2000, 100000][m])
  {
    MultitudeOfGroup(t, m, g);
    assert t[0..|Multitudes[m]|] == Multitudes[m];
    FirstPattern2(t, 0, Span(0, |Multitudes[m]|));
    MultitudeValue(m);
  }

  /** `hundreds`, `thousands` and `millions` stand for 300, 2000 and 100000. */
  lemma MultitudeValue(m: nat)
    requires m < |Multitudes|
    ensures GroupValue(Multitudes[m]) == Some([300, 2000, 100000][m])
  {
    WordNotNumber(Multitudes[m]);
  }

  /** The report `residents of kibera protest eviction of 300 families`, written in
      three parts, has no upper-case letter. */
  lemma KiberaLower(t: string)
    requires t == "residents of kibera " + "protest eviction of " + "300 families"
    ensures |t| == 52 && NoUpper(t)
  {
    var p, m, q := "residents of kibera ", "protest eviction of ", "300 families";
    assert NoUpper(p) && NoUpper(m) && NoUpper(q);
    NoUpperAppend(p, m);
    NoUpperAppend(p + m, q);
  }

  /** Its only digits are the three at 40..42. */
  lemma KiberaDigits(t: string)
    requires t == "residents of kibera " + "protest eviction of " + "300 families"
    ensures |t| == 52
    ensures forall c :: 0 <= c < 40 ==> !IsDigit(t[c])
    ensures forall c :: 40 <= c < 43 ==> IsDigit(t[c])
  {
    var p, m, q := "residents of kibera ", "protest eviction of ", "300 families";
    Concat3(p, m, q);
    assert forall c :: 0 <= c < |p| ==> !IsDigit(p[c]);
    assert forall c :: 0 <= c < |m| ==> !IsDigit(m[c]);
  }

  /** The digits read 300 and are followed by a space and `families`. */
  lemma KiberaFamilies(t: string)
    requires t == "residents of kibera " + "protest eviction of " + "300 families"
    ensures |t| == 52 && t[43] == ' ' && OccursAt(Nouns[0], t, 44)
    ensures AllDigits(t[40..43]) && DecimalValue(t[40..43]) == 300
  {
    var p, m, q := "residents of kibera ", "protest eviction of ", "300 families";
    Concat3(p, m, q);
    assert forall c :: 0 <= c < 8 ==> t[44 + c] == q[4 + c] == Nouns[0][c];
    assert t[40] == q[0] == '3' && t[41] == q[1] == '0' && t[42] == q[2] == '0';
    ThreeDigits(t, 40);
  }

  /** That report counts 300 people. */
  lemma KiberaCount(t: string)
    requires t == "residents of kibera " + "protest eviction of " + "300 families"
    ensures ExtractAffectedCount(t) == Some(300)
  {
    KiberaLower(t);
    KiberaDigits(t);
    KiberaFamilies(t);
    LeadingNumberOfPeople(t, 40, 43, 0);
  }
}
