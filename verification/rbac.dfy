/**
 Role-based access: patterns with `*` wildcards, and the union of the policies of a
 principal's roles.
 */
module Rbac {
  import opened Options

  const STAR := '*'

  // ---------------------------------------------------------------------------
  // What a pattern means
  // ---------------------------------------------------------------------------

  function Stars(pattern: string): nat {
    if pattern == [] then 0 else (if pattern[0] == STAR then 1 else 0) + Stars(pattern[1..])
  }

  /** The pattern with its stars replaced, in order, by the given strings. */
  function Substitute(pattern: string, fills: seq<string>): string
    requires |fills| == Stars(pattern)
  {
    if pattern == [] then []
    else if pattern[0] == STAR then fills[0] + Substitute(pattern[1..], fills[1..])
    else [pattern[0]] + Substitute(pattern[1..], fills)
  }

  /** Some choice of strings for the stars makes the pattern equal the whole value. */
  ghost predicate Matches(pattern: string, value: string) {
    exists fills: seq<string> :: |fills| == Stars(pattern) && Substitute(pattern, fills) == value
  }

  // ---------------------------------------------------------------------------
  // The pattern cut at its stars
  // ---------------------------------------------------------------------------

  /** The literal segments between the stars. */
  function Split(pattern: string): (parts: seq<string>)
    ensures |parts| == Stars(pattern) + 1
    ensures forall i :: 0 <= i < |parts| ==> STAR !in parts[i]
  {
    if pattern == [] then [[]]
    else
      var parts := Split(pattern[1..]);
      if pattern[0] == STAR then [[]] + parts
      else [[pattern[0]] + parts[0]] + parts[1..]
  }

  /** The segments with a star between each two. */
  function Join(parts: seq<string>): string
    requires parts != []
  {
    if |parts| == 1 then parts[0] else parts[0] + [STAR] + Join(parts[1..])
  }

  /** Splitting loses nothing: the starless segments joined by stars are the pattern. */
  lemma {:induction false} SplitJoins(pattern: string)
    ensures Join(Split(pattern)) == pattern
    ensures forall i :: 0 <= i < |Split(pattern)| ==> STAR !in Split(pattern)[i]
    decreases |pattern|
  {
    if pattern != [] {
      var parts := Split(pattern[1..]);
      SplitJoins(pattern[1..]);
      assert pattern == [pattern[0]] + pattern[1..];
      if pattern[0] == STAR {
        assert ([[]] + parts)[1..] == parts;
      } else {
        var longer := [[pattern[0]] + parts[0]] + parts[1..];
        assert longer[1..] == parts[1..];
        if |parts| > 1 {
          assert ([pattern[0]] + parts[0]) + [STAR] + Join(parts[1..])
              == [pattern[0]] + (parts[0] + [STAR] + Join(parts[1..]));
        }
      }
    }
  }

  /** Fillings and segments in turn. */
  function WeaveTail(parts: seq<string>, fills: seq<string>): string
    requires |parts| == |fills|
    decreases |fills|
  {
    if fills == [] then [] else fills[0] + (parts[0] + WeaveTail(parts[1..], fills[1..]))
  }

  /** The segments with the fillings between them. */
  function Weave(parts: seq<string>, fills: seq<string>): string
    requires |parts| == |fills| + 1
  {
    parts[0] + WeaveTail(parts[1..], fills)
  }

  lemma {:induction false} SubstituteIsWeave(pattern: string, fills: seq<string>)
    requires |fills| == Stars(pattern)
    ensures Substitute(pattern, fills) == Weave(Split(pattern), fills)
    decreases |pattern|
  {
    if pattern != [] {
      var parts := Split(pattern[1..]);
      if pattern[0] == STAR {
        SubstituteIsWeave(pattern[1..], fills[1..]);
        assert ([[]] + parts)[1..] == parts;
        assert Weave([[]] + parts, fills) == WeaveTail(parts, fills);
      } else {
        SubstituteIsWeave(pattern[1..], fills);
        var longer := [[pattern[0]] + parts[0]] + parts[1..];
        assert longer[1..] == parts[1..];
        assert ([pattern[0]] + parts[0]) + WeaveTail(parts[1..], fills)
            == [pattern[0]] + (parts[0] + WeaveTail(parts[1..], fills));
      }
    }
  }

  // ---------------------------------------------------------------------------
  // Segments after a star
  // ---------------------------------------------------------------------------

  /** `part` occurs in `value` at `i`. */
  predicate OccursAt(part: string, value: string, i: nat) {
    i + |part| <= |value| && value[i..i + |part|] == part
  }

  /**
   `value` is some filling, then the first segment, then further fillings and segments,
   ending with the last segment.
   */
  ghost predicate TailMatches(parts: seq<string>, value: string)
    requires parts != []
    decreases |parts|
  {
    if |parts| == 1 then |parts[0]| <= |value| && value[|value| - |parts[0]|..] == parts[0]
    else exists i: nat :: OccursAt(parts[0], value, i) && TailMatches(parts[1..], value[i + |parts[0]|..])
  }

  lemma SliceOfSuffix(value: string, k: nat, i: nat, j: nat)
    requires k <= |value| && i <= j <= |value| - k
    ensures value[k..][i..j] == value[k + i..k + j]
    ensures value[k..][j..] == value[k + j..]
  {
  }

  /** A longer filling before the first segment does no harm. */
  lemma {:induction false} TailMatchesAbsorbs(parts: seq<string>, value: string, k: nat)
    requires parts != [] && k <= |value| && TailMatches(parts, value[k..])
    ensures TailMatches(parts, value)
  {
    var size := |parts[0]|;
    if |parts| == 1 {
      EndsAlike(parts[0], value, k);
    } else {
      var i: nat :| OccursAt(parts[0], value[k..], i) && TailMatches(parts[1..], value[k..][i + size..]);
      OccursFurther(parts[0], value, k, i);
    }
  }

  lemma EndsAlike(part: string, value: string, k: nat)
    requires k + |part| <= |value| && value[k..][|value| - k - |part|..] == part
    ensures value[|value| - |part|..] == part
  {
    SliceOfSuffix(value, k, 0, |value| - k - |part|);
  }

  lemma OccursFurther(part: string, value: string, k: nat, i: nat)
    requires k <= |value| && OccursAt(part, value[k..], i)
    ensures OccursAt(part, value, k + i) && value[k..][i + |part|..] == value[k + i + |part|..]
  {
    SliceOfSuffix(value, k, i, i + |part|);
  }

  /** Taking the leftmost occurrence of the first segment loses nothing. */
  lemma {:induction false} LeftmostSuffices(parts: seq<string>, value: string, i: nat)
    requires |parts| > 1 && OccursAt(parts[0], value, i)
    requires forall j: nat :: j < i ==> !OccursAt(parts[0], value, j)
    ensures TailMatches(parts, value) <==> TailMatches(parts[1..], value[i + |parts[0]|..])
  {
    if TailMatches(parts, value) {
      var j: nat :| OccursAt(parts[0], value, j) && TailMatches(parts[1..], value[j + |parts[0]|..]);
      var rest := value[i + |parts[0]|..];
      assert value[j + |parts[0]|..] == rest[j - i..];
      TailMatchesAbsorbs(parts[1..], rest, j - i);
    }
  }

  lemma {:induction false} EmptySegment(parts: seq<string>, value: string)
    requires |parts| > 1 && parts[0] == []
    ensures TailMatches(parts, value) <==> TailMatches(parts[1..], value)
  {
    assert OccursAt(parts[0], value, 0) && value[0 + 0..] == value;
    LeftmostSuffices(parts, value, 0);
  }

  /** Fillings that show how the segments match. */
  lemma {:induction false} FillsOf(parts: seq<string>, value: string) returns (fills: seq<string>)
    requires parts != [] && TailMatches(parts, value)
    ensures |fills| == |parts| && WeaveTail(parts, fills) == value
    decreases |parts|
  {
    if |parts| == 1 {
      fills := [value[..|value| - |parts[0]|]];
      assert WeaveTail(parts[1..], fills[1..]) == [];
      assert value == fills[0] + (parts[0] + []);
    } else {
      var i: nat :| OccursAt(parts[0], value, i) && TailMatches(parts[1..], value[i + |parts[0]|..]);
      var rest := FillsOf(parts[1..], value[i + |parts[0]|..]);
      fills := [value[..i]] + rest;
      assert fills[1..] == rest;
      CutInThree(value, i, i + |parts[0]|);
    }
  }

  lemma CutInThree(value: string, i: nat, j: nat)
    requires i <= j <= |value|
    ensures value[..i] + (value[i..j] + value[j..]) == value
  {
  }

  /** Every weaving matches. */
  lemma {:induction false} WeavingMatches(parts: seq<string>, fills: seq<string>)
    requires parts != [] && |fills| == |parts|
    ensures TailMatches(parts, WeaveTail(parts, fills))
    decreases |parts|
  {
    var rest := WeaveTail(parts[1..], fills[1..]);
    if |parts| > 1 {
      WeavingMatches(parts[1..], fills[1..]);
    }
    PieceOccurs(fills[0], parts[0], rest);
  }

  lemma PieceOccurs(before: string, piece: string, after: string)
    ensures var value := before + (piece + after);
            && OccursAt(piece, value, |before|)
            && value[|before| + |piece|..] == after
            && (after == [] ==> value[|value| - |piece|..] == piece)
  {
  }

  // ---------------------------------------------------------------------------
  // The greedy matcher
  // ---------------------------------------------------------------------------

  /** The leftmost occurrence of `part` from `from` on. */
  method Find(part: string, value: string, from: nat) returns (found: Option<nat>)
    requires from <= |value|
    ensures found.None? ==> forall j: nat :: from <= j ==> !OccursAt(part, value, j)
    ensures found.Some? ==> found.value >= from && OccursAt(part, value, found.value)
    ensures found.Some? ==> forall j: nat :: from <= j < found.value ==> !OccursAt(part, value, j)
  {
    var i := from;
    while i + |part| <= |value|
      invariant from <= i
      invariant forall j: nat :: from <= j < i ==> !OccursAt(part, value, j)
    {
      if value[i..i + |part|] == part {
        return Some(i);
      }
      i := i + 1;
    }
    return None;
  }

  lemma OccursInSuffix(part: string, value: string, pos: nat, i: nat)
    requires pos <= |value| && pos <= i
    ensures OccursAt(part, value, i) <==> OccursAt(part, value[pos..], i - pos)
  {
    if i + |part| <= |value| {
      assert value[pos..][i - pos..i - pos + |part|] == value[i..i + |part|];
    }
  }

  /** The first segment is a prefix of the value, the others match what follows it. */
  ghost predicate SegmentsMatch(parts: seq<string>, value: string)
    requires |parts| > 1
  {
    parts[0] <= value && TailMatches(parts[1..], value[|parts[0]|..])
  }

  /** After `i` segments, `pos` characters of the value are used up and the rest decides. */
  ghost predicate Undecided(parts: seq<string>, value: string, i: nat, pos: nat)
    requires |parts| > 1
  {
    && pos <= |value|
    && (i == 0 ==> pos == 0)
    && (0 < i < |parts| ==> (SegmentsMatch(parts, value) <==> TailMatches(parts[i..], value[pos..])))
    && (i >= |parts| ==> SegmentsMatch(parts, value))
  }

  lemma {:induction false} SkipEmpty(parts: seq<string>, value: string, i: nat, pos: nat)
    requires |parts| > 1 && i < |parts| && Undecided(parts, value, i, pos) && parts[i] == []
    ensures Undecided(parts, value, i + 1, pos)
  {
    if i == 0 {
      assert value[0..] == value;
    } else if i + 1 < |parts| {
      EmptySegment(parts[i..], value[pos..]);
      assert parts[i..][1..] == parts[i + 1..];
    }
  }

  /** A middle segment: its leftmost occurrence decides. */
  lemma {:induction false} TakeLeftmost(parts: seq<string>, value: string, i: nat, pos: nat, found: nat)
    requires |parts| > 1 && 0 < i < |parts| - 1 && Undecided(parts, value, i, pos)
    requires pos <= found && OccursAt(parts[i], value, found)
    requires forall j: nat :: pos <= j < found ==> !OccursAt(parts[i], value, j)
    ensures Undecided(parts, value, i + 1, found + |parts[i]|)
  {
    var part := parts[i];
    forall j: nat | j < found - pos ensures !OccursAt(part, value[pos..], j) {
      OccursInSuffix(part, value, pos, pos + j);
    }
    OccursInSuffix(part, value, pos, found);
    LeftmostSuffices(parts[i..], value[pos..], found - pos);
    assert parts[i..][1..] == parts[i + 1..];
    assert value[pos..][found - pos + |part|..] == value[found + |part|..];
  }

  method MatchSegments(parts: seq<string>, value: string) returns (matched: bool)
    requires |parts| > 1
    ensures matched == SegmentsMatch(parts, value)
  {
    var pos: nat := 0;
    var i := 0;
    while i < |parts|
      invariant 0 <= i <= |parts| && Undecided(parts, value, i, pos)
    {
      var part := parts[i];
      if part == [] {
        SkipEmpty(parts, value, i, pos);
      } else if i == 0 {
        if !(part <= value) {
          return false;
        }
        pos := pos + |part|;
      } else if i == |parts| - 1 {
        assert parts[i..] == [part];
        return |part| <= |value| - pos && value[|value| - |part|..] == part;
      } else {
        var found := Find(part, value, pos);
        if found.None? {
          NoOccurrence(parts[i..], value, pos);
          return false;
        }
        TakeLeftmost(parts, value, i, pos, found.value);
        pos := found.value + |part|;
      }
      i := i + 1;
    }
    return true;
  }

  method PatternMatches(pattern: string, value: string) returns (matched: bool)
    ensures matched == Matches(pattern, value)
  {
    MatchesBySegments(pattern, value);
    if pattern == "*" {
      SingleStar(value);
      return true;
    }
    if STAR !in pattern {
      NoStars(pattern);
      return pattern == value;
    }
    StarsWithStar(pattern);
    matched := MatchSegments(Split(pattern), value);
  }

  lemma {:induction false} NoOccurrence(parts: seq<string>, value: string, pos: nat)
    requires |parts| > 1 && pos <= |value|
    requires forall j: nat :: pos <= j ==> !OccursAt(parts[0], value, j)
    ensures !TailMatches(parts, value[pos..])
  {
    if TailMatches(parts, value[pos..]) {
      var i: nat :| OccursAt(parts[0], value[pos..], i)
                    && TailMatches(parts[1..], value[pos..][i + |parts[0]|..]);
      OccursInSuffix(parts[0], value, pos, pos + i);
    }
  }

  /** A pattern is met exactly when its segments are. */
  lemma MatchesBySegments(pattern: string, value: string)
    ensures var parts := Split(pattern);
            Matches(pattern, value) <==>
            if |parts| == 1 then value == parts[0] else SegmentsMatch(parts, value)
  {
    var parts := Split(pattern);
    if |parts| == 1 {
      SubstituteIsWeave(pattern, []);
      assert Matches(pattern, value) <==> Substitute(pattern, []) == value;
    } else {
      if Matches(pattern, value) {
        var fills: seq<string> :| |fills| == Stars(pattern) && Substitute(pattern, fills) == value;
        FilledMatches(pattern, fills);
      }
      if SegmentsMatch(parts, value) {
        MatchFills(pattern, value);
      }
    }
  }

  lemma FilledMatches(pattern: string, fills: seq<string>)
    requires |fills| == Stars(pattern) > 0
    ensures SegmentsMatch(Split(pattern), Substitute(pattern, fills))
  {
    var parts := Split(pattern);
    SubstituteIsWeave(pattern, fills);
    WeavingMatches(parts[1..], fills);
    var value := Substitute(pattern, fills);
    assert value[|parts[0]|..] == WeaveTail(parts[1..], fills);
  }

  lemma MatchFills(pattern: string, value: string)
    requires Stars(pattern) > 0 && SegmentsMatch(Split(pattern), value)
    ensures Matches(pattern, value)
  {
    var parts := Split(pattern);
    var fills := FillsOf(parts[1..], value[|parts[0]|..]);
    SubstituteIsWeave(pattern, fills);
    assert parts[0] + value[|parts[0]|..] == value;
  }

  lemma {:induction false} NoStars(pattern: string)
    requires STAR !in pattern
    ensures Split(pattern) == [pattern]
  {
    if pattern != [] {
      NoStars(pattern[1..]);
      assert [pattern[0]] + pattern[1..] == pattern;
    }
  }

  lemma {:induction false} StarsWithStar(pattern: string)
    requires STAR in pattern
    ensures Stars(pattern) > 0
  {
    if pattern[0] != STAR {
      StarsWithStar(pattern[1..]);
    }
  }

  lemma SingleStar(value: string)
    ensures Matches("*", value)
  {
    assert "*"[1..] == "";
    assert Stars("*") == 1 && Substitute("*", [value]) == value + [] == value;
  }

  /** Matching, character by character: a star takes up any beginning of the value, anything else itself. */
  lemma MatchesStepwise(pattern: string, value: string)
    ensures pattern == "" ==> (Matches(pattern, value) <==> value == "")
    ensures pattern != "" && pattern[0] != '*' ==>
              (Matches(pattern, value) <==> value != "" && value[0] == pattern[0] && Matches(pattern[1..], value[1..]))
    ensures pattern != "" && pattern[0] == '*' ==>
              (Matches(pattern, value) <==> exists k :: 0 <= k <= |value| && Matches(pattern[1..], value[k..]))
  {
    if pattern == "" {
      EmptyMatches(value);
    } else if pattern[0] == '*' {
      StarStep(pattern, value);
    } else {
      CharStep(pattern, value);
    }
  }

  lemma EmptyMatches(value: string)
    ensures Matches("", value) <==> value == ""
  {
    var none: seq<string> := [];
    assert |none| == Stars("") && Substitute("", none) == "";
  }

  lemma CharStep(pattern: string, value: string)
    requires pattern != "" && pattern[0] != '*'
    ensures Matches(pattern, value) <==> value != "" && value[0] == pattern[0] && Matches(pattern[1..], value[1..])
  {
    if Matches(pattern, value) {
      var fills: seq<string> :| |fills| == Stars(pattern) && Substitute(pattern, fills) == value;
      assert value == [pattern[0]] + Substitute(pattern[1..], fills);
      assert |fills| == Stars(pattern[1..]) && Substitute(pattern[1..], fills) == value[1..];
    }
    if value != "" && value[0] == pattern[0] && Matches(pattern[1..], value[1..]) {
      var fills: seq<string> :| |fills| == Stars(pattern[1..]) && Substitute(pattern[1..], fills) == value[1..];
      assert |fills| == Stars(pattern) && Substitute(pattern, fills) == [value[0]] + value[1..] == value;
    }
  }

  lemma StarStep(pattern: string, value: string)
    requires pattern != "" && pattern[0] == '*'
    ensures Matches(pattern, value) <==> exists k :: 0 <= k <= |value| && Matches(pattern[1..], value[k..])
  {
    if Matches(pattern, value) {
      var fills: seq<string> :| |fills| == Stars(pattern) && Substitute(pattern, fills) == value;
      var rest := Substitute(pattern[1..], fills[1..]);
      assert value == fills[0] + rest;
      assert |fills[1..]| == Stars(pattern[1..]) && value[|fills[0]|..] == rest;
      assert Matches(pattern[1..], value[|fills[0]|..]);
    }
    if k :| 0 <= k <= |value| && Matches(pattern[1..], value[k..]) {
      var fills: seq<string> :| |fills| == Stars(pattern[1..]) && Substitute(pattern[1..], fills) == value[k..];
      var more := [value[..k]] + fills;
      assert more[1..] == fills;
      assert |more| == Stars(pattern) && Substitute(pattern, more) == value[..k] + value[k..] == value;
    }
  }

  /** A pattern without a star names one value; one with a star at its end names a beginning. */
  lemma PlainAndPrefixPatterns(name: string, value: string)
    requires '*' !in name
    ensures Matches(name, value) <==> value == name
    ensures Matches(name + "*", value) <==> |name| <= |value| && value[..|name|] == name
    ensures Matches("*" + name, value) <==> |name| <= |value| && value[|value| - |name|..] == name
  {
    NoStars(name);
    MatchesBySegments(name, value);
    StarAfter(name, value);
    StarBefore(name, value);
  }

  lemma {:induction false} StarAfter(name: string, value: string)
    requires '*' !in name
    ensures Matches(name + "*", value) <==> |name| <= |value| && value[..|name|] == name
    decreases |name|
  {
    if name == "" {
      assert name + "*" == "*";
      SingleStar(value);
    } else {
      var pattern := name + "*";
      assert pattern[0] == name[0] && pattern[1..] == name[1..] + "*";
      MatchesStepwise(pattern, value);
      if value != "" {
        StarAfter(name[1..], value[1..]);
        if |name| <= |value| {
          assert value[..|name|] == [value[0]] + value[1..][..|name| - 1];
          assert name == [name[0]] + name[1..];
        }
      }
    }
  }

  lemma StarBefore(name: string, value: string)
    requires '*' !in name
    ensures Matches("*" + name, value) <==> |name| <= |value| && value[|value| - |name|..] == name
  {
    var pattern := "*" + name;
    assert pattern[0] == '*' && pattern[1..] == name;
    MatchesStepwise(pattern, value);
    NoStars(name);
    forall k | 0 <= k <= |value| ensures Matches(name, value[k..]) <==> value[k..] == name {
      MatchesBySegments(name, value[k..]);
    }
    if |name| <= |value| && value[|value| - |name|..] == name {
      assert Matches(name, value[|value| - |name|..]);
    }
  }

  // ---------------------------------------------------------------------------
  // Policies
  // ---------------------------------------------------------------------------

  /** Allow-lists; `None` leaves the dimension unrestricted. */
  datatype RolePolicy = RolePolicy(models: Option<seq<string>>, providers: Option<seq<string>>)

  datatype RbacConfig = RbacConfig(
    enabled: bool,
    roles: map<string, RolePolicy>,
    defaultRole: Option<string>)

  datatype Denial =
    | NoMatchingRole
    | ModelForbidden(model: string)
    | ProviderForbidden(provider: string)

  datatype Dimension = Models | Providers

  function Select(d: Dimension, p: RolePolicy): Option<seq<string>> {
    match d
    case Models => p.models
    case Providers => p.providers
  }

  function Deny(d: Dimension, value: string): Denial {
    match d
    case Models => ModelForbidden(value)
    case Providers => ProviderForbidden(value)
  }

  /** The roles whose policies count: those of the principal that are configured, or the default. */
  ghost function ActiveRoles(cfg: RbacConfig, roles: seq<string>): set<string> {
    var matched := set r | r in roles && r in cfg.roles;
    if matched != {} then matched
    else if cfg.defaultRole.Some? && cfg.defaultRole.value in cfg.roles then {cfg.defaultRole.value}
    else {}
  }

  /** One allow-list lets a value through. */
  ghost predicate Permits(list: Option<seq<string>>, value: string) {
    list.None? || exists p :: p in list.value && Matches(p, value)
  }

  /** What a check decides, said without merging anything. */
  ghost function Decision(cfg: RbacConfig, d: Dimension, roles: seq<string>, isAdmin: bool, value: string)
    : Result<(), Denial>
  {
    if !cfg.enabled || isAdmin then Ok(())
    else if ActiveRoles(cfg, roles) == {} then Err(NoMatchingRole)
    else if exists r :: r in ActiveRoles(cfg, roles) && Permits(Select(d, cfg.roles[r]), value) then Ok(())
    else Err(Deny(d, value))
  }

  /** A role lets a model (or a provider) through: it names none, or some pattern that matches. */
  ghost predicate RoleAllows(policy: RolePolicy, d: Dimension, value: string) {
    match d
    case Models => policy.models.None? || exists p :: p in policy.models.value && Matches(p, value)
    case Providers => policy.providers.None? || exists p :: p in policy.providers.value && Matches(p, value)
  }

  /** A principal with no configured role lives on the default role. */
  predicate OnDefault(cfg: RbacConfig, roles: seq<string>) {
    forall r :: r in roles ==> r !in cfg.roles
  }

  /** A decision, case by case. */
  ghost predicate Decided(
      cfg: RbacConfig, d: Dimension, roles: seq<string>, isAdmin: bool, value: string, result: Result<(), Denial>)
  {
    if !cfg.enabled || isAdmin then result == Ok(())
    else if !OnDefault(cfg, roles) then
      if exists r :: r in roles && r in cfg.roles && RoleAllows(cfg.roles[r], d, value) then result == Ok(())
      else result == Err(if d.Models? then ModelForbidden(value) else ProviderForbidden(value))
    else if cfg.defaultRole.Some? && cfg.defaultRole.value in cfg.roles then
      if RoleAllows(cfg.roles[cfg.defaultRole.value], d, value) then result == Ok(())
      else result == Err(if d.Models? then ModelForbidden(value) else ProviderForbidden(value))
    else result == Err(NoMatchingRole)
  }

  lemma DecisionIsDecided(cfg: RbacConfig, d: Dimension, roles: seq<string>, isAdmin: bool, value: string)
    ensures Decided(cfg, d, roles, isAdmin, value, Decision(cfg, d, roles, isAdmin, value))
  {
    var matched := set r | r in roles && r in cfg.roles;
    forall r | r in cfg.roles ensures Permits(Select(d, cfg.roles[r]), value) <==> RoleAllows(cfg.roles[r], d, value) {
    }
    if OnDefault(cfg, roles) {
      assert matched == {};
    } else {
      var r :| r in roles && r in cfg.roles;
      assert r in matched;
    }
  }

  /** Union one dimension's allow-list into the accumulator. */
  function Merged(acc: Option<seq<string>>, item: Option<seq<string>>): Option<seq<string>> {
    match item
    case None => None
    case Some(list) => if acc.Some? then Some(acc.value + list) else None
  }

  lemma MergedPermits(acc: Option<seq<string>>, item: Option<seq<string>>, value: string)
    ensures Permits(Merged(acc, item), value) <==> Permits(acc, value) || Permits(item, value)
  {
    if acc.Some? && item.Some? {
      var both := acc.value + item.value;
      if Permits(acc, value) {
        var p :| p in acc.value && Matches(p, value);
        assert p in both && Matches(p, value);
      }
      if Permits(item, value) {
        var p :| p in item.value && Matches(p, value);
        assert p in both && Matches(p, value);
      }
    }
  }

  method AnyMatch(patterns: seq<string>, value: string) returns (any: bool)
    ensures any == Permits(Some(patterns), value)
  {
    for i := 0 to |patterns|
      invariant forall j :: 0 <= j < i ==> !Matches(patterns[j], value)
    {
      var matched := PatternMatches(patterns[i], value);
      if matched {
        return true;
      }
    }
    return false;
  }

  /** Some policy among the first `n` lets the value through in dimension `d`. */
  ghost predicate SomePermits(policies: seq<RolePolicy>, n: nat, d: Dimension, value: string)
    requires n <= |policies|
  {
    exists i :: 0 <= i < n && Permits(Select(d, policies[i]), value)
  }

  /** `policies` are those of the roles in `active`, in any order and number. */
  ghost predicate PoliciesOf(cfg: RbacConfig, active: set<string>, policies: seq<RolePolicy>) {
    && (forall p :: p in policies ==> exists r :: r in active && r in cfg.roles && cfg.roles[r] == p)
    && (forall r :: r in active && r in cfg.roles ==> cfg.roles[r] in policies)
  }

  /** The policies that count, one per occurrence of a matched role. */
  method ActivePolicies(cfg: RbacConfig, roles: seq<string>) returns (policies: seq<RolePolicy>)
    ensures PoliciesOf(cfg, ActiveRoles(cfg, roles), policies)
    ensures policies == [] <==> ActiveRoles(cfg, roles) == {}
  {
    policies := [];
    ghost var matched: set<string> := {};
    for i := 0 to |roles|
      invariant matched == set r | r in roles[..i] && r in cfg.roles
      invariant PoliciesOf(cfg, matched, policies)
      invariant policies == [] <==> matched == {}
    {
      assert roles[..i + 1] == roles[..i] + [roles[i]];
      if roles[i] in cfg.roles {
        policies := policies + [cfg.roles[roles[i]]];
        matched := matched + {roles[i]};
      }
    }
    assert roles[..|roles|] == roles;
    assert matched == set r | r in roles && r in cfg.roles;
    if policies == [] && cfg.defaultRole.Some? && cfg.defaultRole.value in cfg.roles {
      policies := [cfg.roles[cfg.defaultRole.value]];
    }
  }

  /** The merged policy; `None` when no role applies. */
  method EffectivePolicy(cfg: RbacConfig, roles: seq<string>) returns (effective: Option<RolePolicy>)
    ensures effective.None? <==> ActiveRoles(cfg, roles) == {}
    ensures effective.Some? ==> forall d, value ::
              Permits(Select(d, effective.value), value)
              <==> exists r :: r in ActiveRoles(cfg, roles) && Permits(Select(d, cfg.roles[r]), value)
  {
    var policies := ActivePolicies(cfg, roles);
    if policies == [] {
      return None;
    }
    var merged := RolePolicy(Some([]), Some([]));
    for i := 0 to |policies|
      invariant forall d, value :: Permits(Select(d, merged), value) <==> SomePermits(policies, i, d, value)
    {
      ghost var before := merged;
      merged := RolePolicy(Merged(merged.models, policies[i].models),
                           Merged(merged.providers, policies[i].providers));
      forall d, value
        ensures Permits(Select(d, merged), value) <==> SomePermits(policies, i + 1, d, value)
      {
        assert Select(d, merged) == Merged(Select(d, before), Select(d, policies[i]));
        MergedPermits(Select(d, before), Select(d, policies[i]), value);
        if SomePermits(policies, i, d, value) {
          var j :| 0 <= j < i && Permits(Select(d, policies[j]), value);
          assert 0 <= j < i + 1 && Permits(Select(d, policies[j]), value);
        }
      }
    }
    forall d, value
      ensures Permits(Select(d, merged), value)
              <==> exists r :: r in ActiveRoles(cfg, roles) && Permits(Select(d, cfg.roles[r]), value)
    {
      PoliciesOfRoles(cfg, ActiveRoles(cfg, roles), policies, d, value);
    }
    effective := Some(merged);
  }

  lemma PoliciesOfRoles(cfg: RbacConfig, roles: set<string>, policies: seq<RolePolicy>, d: Dimension, value: string)
    requires forall r :: r in roles ==> r in cfg.roles
    requires PoliciesOf(cfg, roles, policies)
    ensures SomePermits(policies, |policies|, d, value)
            <==> exists r :: r in roles && Permits(Select(d, cfg.roles[r]), value)
  {
    if SomePermits(policies, |policies|, d, value) {
      var i :| 0 <= i < |policies| && Permits(Select(d, policies[i]), value);
      assert policies[i] in policies;
    }
    if exists r :: r in roles && Permits(Select(d, cfg.roles[r]), value) {
      var r :| r in roles && Permits(Select(d, cfg.roles[r]), value);
      assert cfg.roles[r] in policies;
    }
  }

  method CheckDimension(cfg: RbacConfig, d: Dimension, roles: seq<string>, isAdmin: bool, value: string)
    returns (result: Result<(), Denial>)
    ensures result == Decision(cfg, d, roles, isAdmin, value)
    ensures !cfg.enabled || isAdmin ==> result == Ok(())
    ensures Decided(cfg, d, roles, isAdmin, value, result)
  {
    DecisionIsDecided(cfg, d, roles, isAdmin, value);
    if !cfg.enabled || isAdmin {
      return Ok(());
    }
    var policy := EffectivePolicy(cfg, roles);
    if policy.None? {
      return Err(NoMatchingRole);
    }
    match Select(d, policy.value) {
      case None =>
        assert Permits(Select(d, policy.value), value);
        return Ok(());
      case Some(allowed) =>
        var any := AnyMatch(allowed, value);
        return if any then Ok(()) else Err(Deny(d, value));
    }
  }

  // ---------------------------------------------------------------------------
  // What the answers depend on
  // ---------------------------------------------------------------------------

  /** Neither the order of the roles nor repeats among them matter. */
  lemma OrderAndRepeatsIgnored(
      cfg: RbacConfig, d: Dimension, roles1: seq<string>, roles2: seq<string>, isAdmin: bool, value: string)
    requires forall r :: r in roles1 <==> r in roles2
    ensures Decision(cfg, d, roles1, isAdmin, value) == Decision(cfg, d, roles2, isAdmin, value)
  {
    assert (set r | r in roles1 && r in cfg.roles) == (set r | r in roles2 && r in cfg.roles);
  }

  /** Once a role is configured, further roles only add access. */
  lemma MoreRolesMoreAccess(
      cfg: RbacConfig, d: Dimension, roles: seq<string>, more: seq<string>, isAdmin: bool, value: string)
    requires !OnDefault(cfg, roles)
    requires Decision(cfg, d, roles, isAdmin, value).Ok?
    ensures Decision(cfg, d, roles + more, isAdmin, value).Ok?
  {
    var matched := set r | r in roles && r in cfg.roles;
    var r :| r in roles && r in cfg.roles;
    assert r in matched;
    assert r in (set q | q in roles + more && q in cfg.roles);
    assert ActiveRoles(cfg, roles) <= ActiveRoles(cfg, roles + more);
  }

  // ---------------------------------------------------------------------------
  // When one allow-list covers another
  // ---------------------------------------------------------------------------

  lemma {:induction false} StarsConcat(a: string, b: string)
    ensures Stars(a + b) == Stars(a) + Stars(b)
  {
    if a == [] {
      assert a + b == b;
    } else {
      assert (a + b)[0] == a[0] && (a + b)[1..] == a[1..] + b;
      StarsConcat(a[1..], b);
    }
  }

  /** Substituting in a concatenation is substituting in its parts. */
  lemma {:induction false} SubstituteConcat(a: string, b: string, fills: seq<string>)
    requires |fills| == Stars(a) + Stars(b)
    ensures Stars(a + b) == |fills|
    ensures Substitute(a + b, fills) == Substitute(a, fills[..Stars(a)]) + Substitute(b, fills[Stars(a)..])
    decreases |a|
  {
    StarsConcat(a, b);
    var k := Stars(a);
    if a == [] {
      assert a + b == b && fills[0..] == fills;
    } else {
      var ab := a + b;
      assert ab[0] == a[0] && ab[1..] == a[1..] + b;
      if a[0] == STAR {
        SubstituteConcat(a[1..], b, fills[1..]);
        FirstFill(fills, k);
        Reassociate(fills[0], Substitute(a[1..], fills[1..][..k - 1]), Substitute(b, fills[k..]));
      } else {
        SubstituteConcat(a[1..], b, fills);
        Reassociate([a[0]], Substitute(a[1..], fills[..k]), Substitute(b, fills[k..]));
      }
    }
  }

  lemma FirstFill(fills: seq<string>, k: nat)
    requires 0 < k <= |fills|
    ensures fills[..k][0] == fills[0] && fills[..k][1..] == fills[1..][..k - 1]
    ensures fills[1..][k - 1..] == fills[k..]
  {
  }

  lemma Reassociate(a: string, b: string, c: string)
    ensures a + (b + c) == (a + b) + c
  {
  }

  /** A pattern that matches a pattern as text matches whatever that one matches. */
  lemma {:induction false} MatchingIsTransitive(q: string, p: string, v: string)
    requires Matches(q, p) && Matches(p, v)
    ensures Matches(q, v)
    decreases |q|
  {
    var f: seq<string> :| |f| == Stars(q) && Substitute(q, f) == p;
    var g: seq<string> :| |g| == Stars(p) && Substitute(p, g) == v;
    if q == [] {
      assert g == [] && v == [];
      assert |f| == Stars(q) && Substitute(q, f) == v;
    } else if q[0] == STAR {
      var rest := Substitute(q[1..], f[1..]);
      var k := Stars(f[0]);
      StarsConcat(f[0], rest);
      SubstituteConcat(f[0], rest, g);
      var tail := Substitute(rest, g[k..]);
      Filled(q[1..], f[1..]);
      Filled(rest, g[k..]);
      MatchingIsTransitive(q[1..], rest, tail);
      PrependFill(q, Substitute(f[0], g[..k]), tail);
    } else {
      var rest := Substitute(q[1..], f);
      assert p == [q[0]] + rest && p[1..] == rest;
      Filled(q[1..], f);
      Filled(rest, g);
      MatchingIsTransitive(q[1..], rest, Substitute(rest, g));
      PrependLiteral(q, Substitute(rest, g));
    }
  }

  lemma Filled(pattern: string, fills: seq<string>)
    requires |fills| == Stars(pattern)
    ensures Matches(pattern, Substitute(pattern, fills))
  {
  }

  lemma PrependFill(q: string, fill: string, tail: string)
    requires q != [] && q[0] == STAR && Matches(q[1..], tail)
    ensures Matches(q, fill + tail)
  {
    var h: seq<string> :| |h| == Stars(q[1..]) && Substitute(q[1..], h) == tail;
    var fills := [fill] + h;
    assert fills[1..] == h;
    assert |fills| == Stars(q) && Substitute(q, fills) == fill + tail;
  }

  lemma PrependLiteral(q: string, tail: string)
    requires q != [] && q[0] != STAR && Matches(q[1..], tail)
    ensures Matches(q, [q[0]] + tail)
  {
    var h: seq<string> :| |h| == Stars(q[1..]) && Substitute(q[1..], h) == tail;
    assert |h| == Stars(q) && Substitute(q, h) == [q[0]] + tail;
  }

  /** A pattern matches itself as text: each star is filled by a star. */
  lemma {:induction false} MatchesItself(p: string)
    ensures Matches(p, p)
    decreases |p|
  {
    if p == [] {
      Filled(p, []);
    } else {
      MatchesItself(p[1..]);
      assert p == [p[0]] + p[1..];
      if p[0] == STAR {
        PrependFill(p, [STAR], p[1..]);
      } else {
        PrependLiteral(p, p[1..]);
      }
    }
  }

  /** An unrestricted dimension permits what the single pattern `*` does. */
  function PatternsOf(list: Option<seq<string>>): seq<string> {
    if list.Some? then list.value else ["*"]
  }

  lemma PatternsPermit(list: Option<seq<string>>, value: string)
    ensures Permits(list, value) <==> Permits(Some(PatternsOf(list)), value)
  {
    if list.None? {
      SingleStar(value);
      assert "*" in PatternsOf(list);
    }
  }

  /** Each pattern of `a`, read as a value, is permitted by `b`. */
  ghost predicate CoveredBy(a: Option<seq<string>>, b: Option<seq<string>>) {
    forall p :: p in PatternsOf(a) ==> Permits(b, p)
  }

  ghost predicate Includes(b: Option<seq<string>>, a: Option<seq<string>>) {
    forall value :: Permits(a, value) ==> Permits(b, value)
  }

  lemma CoveredIncluded(a: Option<seq<string>>, b: Option<seq<string>>)
    requires CoveredBy(a, b)
    ensures Includes(b, a)
  {
    forall value | Permits(a, value) ensures Permits(b, value) {
      PatternsPermit(a, value);
      var p :| p in PatternsOf(a) && Matches(p, value);
      assert Permits(b, p);
      PatternsPermit(b, p);
      var q :| q in PatternsOf(b) && Matches(q, p);
      MatchingIsTransitive(q, p, value);
      PatternsPermit(b, value);
    }
  }

  lemma IncludedCovered(a: Option<seq<string>>, b: Option<seq<string>>)
    requires Includes(b, a)
    ensures CoveredBy(a, b)
  {
    forall p | p in PatternsOf(a) ensures Permits(b, p) {
      MatchesItself(p);
      PatternsPermit(a, p);
    }
  }

  /**
   One allow-list permits everything another does exactly when it permits each of the
   other's patterns read as a value.
   */
  lemma IncludesIff(a: Option<seq<string>>, b: Option<seq<string>>)
    ensures Includes(b, a) <==> CoveredBy(a, b)
  {
    if Includes(b, a) {
      IncludedCovered(a, b);
    }
    if CoveredBy(a, b) {
      CoveredIncluded(a, b);
    }
  }

  /** The same question asked with the matcher. */
  method Covers(b: Option<seq<string>>, a: Option<seq<string>>) returns (covers: bool)
    ensures covers <==> CoveredBy(a, b)
  {
    if b.None? {
      return true;
    }
    var patterns := PatternsOf(a);
    for i := 0 to |patterns|
      invariant forall j :: 0 <= j < i ==> Permits(b, patterns[j])
    {
      var permitted := AnyMatch(b.value, patterns[i]);
      if !permitted {
        return false;
      }
    }
    return true;
  }

  // ---------------------------------------------------------------------------
  // Leaving the default role
  // ---------------------------------------------------------------------------

  /** `r` takes no access away in dimension `d` from a principal that has only the default role. */
  ghost predicate KeepsAccess(cfg: RbacConfig, d: Dimension, roles: seq<string>, r: string) {
    forall value :: Decision(cfg, d, roles, false, value).Ok? ==> Decision(cfg, d, roles + [r], false, value).Ok?
  }

  lemma KeepsAccessIffIncludes(cfg: RbacConfig, d: Dimension, roles: seq<string>, r: string)
    requires cfg.enabled && OnDefault(cfg, roles)
    requires cfg.defaultRole.Some? && cfg.defaultRole.value in cfg.roles
    ensures KeepsAccess(cfg, d, roles, r)
            <==> (r in cfg.roles ==>
                    Includes(Select(d, cfg.roles[r]), Select(d, cfg.roles[cfg.defaultRole.value])))
  {
    var base := cfg.defaultRole.value;
    assert (set q | q in roles && q in cfg.roles) == {};
    assert ActiveRoles(cfg, roles) == {base};
    var extended := set q | q in roles + [r] && q in cfg.roles;
    if r in cfg.roles {
      assert extended == {r};
    } else {
      assert extended == {};
    }
    forall value
      ensures Decision(cfg, d, roles, false, value).Ok? <==> Permits(Select(d, cfg.roles[base]), value)
      ensures r in cfg.roles ==>
                (Decision(cfg, d, roles + [r], false, value).Ok? <==> Permits(Select(d, cfg.roles[r]), value))
      ensures r !in cfg.roles ==>
                (Decision(cfg, d, roles + [r], false, value).Ok? <==> Permits(Select(d, cfg.roles[base]), value))
    {
      assert base in ActiveRoles(cfg, roles);
      if r in cfg.roles {
        assert r in ActiveRoles(cfg, roles + [r]);
      } else {
        assert base in ActiveRoles(cfg, roles + [r]);
      }
    }
  }

  /**
   A principal on the default role keeps all its access when given a further role `r`
   exactly when `r` is not configured or permits each of the default's patterns read as a
   value.
   */
  lemma LeavingTheDefault(cfg: RbacConfig, d: Dimension, roles: seq<string>, r: string)
    requires cfg.enabled && OnDefault(cfg, roles)
    requires cfg.defaultRole.Some? && cfg.defaultRole.value in cfg.roles
    ensures KeepsAccess(cfg, d, roles, r)
            <==> (r in cfg.roles ==>
                    CoveredBy(Select(d, cfg.roles[cfg.defaultRole.value]), Select(d, cfg.roles[r])))
  {
    KeepsAccessIffIncludes(cfg, d, roles, r);
    if r in cfg.roles {
      IncludesIff(Select(d, cfg.roles[cfg.defaultRole.value]), Select(d, cfg.roles[r]));
    }
  }
}
