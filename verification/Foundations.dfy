/** Failure types shared by the components. */
module Wrappers {
  datatype Option<+T> = None | Some(value: T)

  datatype Result<+T, +E> = Success(value: T) | Failure(error: E)
}

/** Integer widths of the original that the model keeps. */
module Widths {
  const U32_MAX: nat := 0xFFFF_FFFF
  const U64_MAX: nat := 0xFFFF_FFFF_FFFF_FFFF
  const I64_MAX: int := 0x7FFF_FFFF_FFFF_FFFF

  /** The widths in decimal. */
  lemma WidthValues()
    ensures U32_MAX == 4_294_967_295 && U64_MAX == 18_446_744_073_709_551_615
    ensures I64_MAX == 9_223_372_036_854_775_807
  {
  }

  type U32 = n: nat | n <= U32_MAX
  type U64 = n: nat | n <= U64_MAX
}

/** Rule identities and severities (core/profiles). */
module Profiles {
  /** A rule id; every one that reaches the policy satisfies `IsRuleId` below. */
  type RuleId = string

  datatype Severity = Info | Minor | Major | Critical | Blocker

  function Rank(s: Severity): nat {
    match s
    case Info => 0
    case Minor => 1
    case Major => 2
    case Critical => 3
    case Blocker => 4
  }

  predicate AtLeast(s: Severity, threshold: Severity) {
    Rank(s) >= Rank(threshold)
  }

  predicate IsRulePart(s: string) {
    s != "" && forall i :: 0 <= i < |s| ==> 'a' <= s[i] <= 'z' || '0' <= s[i] <= '9' || s[i] == '-'
  }

  /** The `namespace:code` form a raw string must have to be a rule id. */
  predicate IsRuleId(s: string) {
    exists k :: 0 <= k < |s| && s[k] == ':' && IsRulePart(s[..k]) && IsRulePart(s[k + 1..])
  }

  const KEBAB: set<char> := {
    'a', 'b', 'c', 'd', 'e', 'f', 'g', 'h', 'i', 'j', 'k', 'l', 'm', 'n', 'o', 'p', 'q', 'r',
    's', 't', 'u', 'v', 'w', 'x', 'y', 'z',
    '0', '1', '2', '3', '4', '5', '6', '7', '8', '9', '-'}

  /** Lower-case letters, digits and hyphens, one by one. */
  predicate IsKebab(s: string) {
    s != "" && forall i :: 0 <= i < |s| ==> s[i] in KEBAB
  }

  lemma KebabCharIff(c: char)
    ensures 'a' <= c <= 'z' || '0' <= c <= '9' || c == '-' <==> c in KEBAB
  {
  }

  lemma KebabIff(s: string)
    ensures IsRulePart(s) <==> IsKebab(s)
  {
    forall i | 0 <= i < |s|
      ensures 'a' <= s[i] <= 'z' || '0' <= s[i] <= '9' || s[i] == '-'
              <==> s[i] in KEBAB
    {
      KebabCharIff(s[i]);
    }
  }

  predicate IsAround(s: string, space: string, code: string) {
    s == space + ":" + code
  }

  lemma SplitAtColon(s: string, k: nat)
    requires k < |s| && s[k] == ':'
    ensures IsAround(s, s[..k], s[k + 1..])
  {
  }

  lemma ColonBetween(s: string, space: string, code: string)
    requires IsAround(s, space, code)
    ensures |space| < |s| && s[|space|] == ':' && s[..|space|] == space && s[|space| + 1..] == code
  {
  }

  /** A rule id is two such parts around a colon. */
  lemma RuleIdIff(s: string)
    ensures IsRuleId(s) <==> exists space, code :: IsKebab(space) && IsKebab(code) && IsAround(s, space, code)
  {
    if k :| 0 <= k < |s| && s[k] == ':' && IsRulePart(s[..k]) && IsRulePart(s[k + 1..]) {
      KebabIff(s[..k]);
      KebabIff(s[k + 1..]);
      SplitAtColon(s, k);
    }
    if space, code :| IsKebab(space) && IsKebab(code) && IsAround(s, space, code) {
      KebabIff(space);
      KebabIff(code);
      ColonBetween(s, space, code);
    }
  }
}

/**
 * Run lengths: the streak counters of the guardrail are all "how long has this been going on
 * without interruption".
 */
module RunLength {
  /** Length of the longest suffix of `s` that holds throughout. */
  function SuffixRun(s: seq<bool>): (n: nat)
    ensures n <= |s|
    ensures forall i :: |s| - n <= i < |s| ==> s[i]
    ensures n < |s| ==> !s[|s| - n - 1]
  {
    if s == [] || !s[|s| - 1] then 0 else SuffixRun(s[..|s| - 1]) + 1
  }

  /** The three clauses above pin the length down: no other number satisfies them. */
  lemma {:induction false} SuffixRunUnique(s: seq<bool>, n: nat)
    requires n <= |s|
    requires forall i :: |s| - n <= i < |s| ==> s[i]
    requires n < |s| ==> !s[|s| - n - 1]
    ensures n == SuffixRun(s)
  {
    if s != [] && s[|s| - 1] {
      SuffixRunUnique(s[..|s| - 1], n - 1);
    }
  }
}
