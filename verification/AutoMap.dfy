/** Matching source fields to target fields by name, within three edits. */
module AutoMap {
  import opened Base
  import opened EditDistance
  import L = Levenshtein

  const UNDERSCORE: byte := 95
  const HYPHEN: byte := 45
  const SPACE: byte := 32
  const MAX_EDITS: nat := 3
  const NO_MATCH_YET: nat := 9999

  // ----- Names

  predicate IsUpper(c: byte) {
    65 <= c <= 90
  }

  predicate IsSeparator(c: byte) {
    c == UNDERSCORE || c == HYPHEN || c == SPACE
  }

  function LowerByte(c: byte): byte {
    if IsUpper(c) then c + 32 else c
  }

  function ToLower(s: Bytes): Bytes {
    seq(|s|, i requires 0 <= i < |s| => LowerByte(s[i]))
  }

  /** ReplaceAll(s, c, ""). */
  function Without(s: Bytes, c: byte): Bytes {
    if s == [] then [] else (if s[0] == c then [] else [s[0]]) + Without(s[1..], c)
  }

  function NormalizeForMatch(s: Bytes): Bytes {
    Without(Without(Without(ToLower(s), UNDERSCORE), HYPHEN), SPACE)
  }

  predicate IsNormal(s: Bytes) {
    forall c <- s :: !IsUpper(c) && !IsSeparator(c)
  }

  lemma {:induction false} WithoutConcat(s: Bytes, t: Bytes, c: byte)
    ensures Without(s + t, c) == Without(s, c) + Without(t, c)
  {
    if s == [] {
      assert s + t == t;
    } else {
      assert (s + t)[1..] == s[1..] + t;
      WithoutConcat(s[1..], t, c);
    }
  }

  lemma NormalizeConcat(s: Bytes, t: Bytes)
    ensures NormalizeForMatch(s + t) == NormalizeForMatch(s) + NormalizeForMatch(t)
  {
    var ls, lt := ToLower(s), ToLower(t);
    assert ToLower(s + t) == ls + lt;
    WithoutConcat(ls, lt, UNDERSCORE);
    var us, ut := Without(ls, UNDERSCORE), Without(lt, UNDERSCORE);
    WithoutConcat(us, ut, HYPHEN);
    WithoutConcat(Without(us, HYPHEN), Without(ut, HYPHEN), SPACE);
  }

  lemma NormalizeByte(c: byte)
    ensures NormalizeForMatch([c]) == if IsSeparator(c) then [] else [LowerByte(c)]
  {
    var l := LowerByte(c);
    assert ToLower([c]) == [l];
    WithoutSingle(l, UNDERSCORE);
    WithoutSingle(l, HYPHEN);
    WithoutSingle(l, SPACE);
    if IsSeparator(c) {
      assert l == c;
    }
  }

  lemma WithoutSingle(l: byte, c: byte)
    ensures Without([l], c) == if l == c then [] else [l]
    ensures Without([], c) == []
  {
    assert [l][1..] == [];
  }

  lemma NormalizeMiddle(p: Bytes, c: byte, q: Bytes)
    ensures NormalizeForMatch(p + [c] + q) == NormalizeForMatch(p) + NormalizeForMatch([c]) + NormalizeForMatch(q)
  {
    hide NormalizeForMatch;
    NormalizeConcat(p + [c], q);
    NormalizeConcat(p, [c]);
  }

  /**
   Byte by byte: A to Z count as a to z, underscore, hyphen and space count for nothing, every other byte counts as
   itself, in its place.
   */
  lemma NormalFormByByte(p: Bytes, c: byte, q: Bytes)
    ensures NormalizeForMatch([]) == []
    ensures 65 <= c <= 90 ==> NormalizeForMatch(p + [c] + q) == NormalizeForMatch(p) + [c + 32] + NormalizeForMatch(q)
    ensures c == 95 || c == 45 || c == 32 ==>
              NormalizeForMatch(p + [c] + q) == NormalizeForMatch(p) + NormalizeForMatch(q)
    ensures !(65 <= c <= 90) && c != 95 && c != 45 && c != 32 ==>
              NormalizeForMatch(p + [c] + q) == NormalizeForMatch(p) + [c] + NormalizeForMatch(q)
  {
    NormalizeMiddle(p, c, q);
    NormalizeByte(c);
    assert ToLower([]) == [];
    hide ToLower;
    assert NormalizeForMatch(p) + [] == NormalizeForMatch(p);
  }

  /** A separator anywhere in a name, and the case of any of its letters, are invisible to matching. */
  lemma SeparatorsAndCaseAreIgnored(p: Bytes, c: byte, q: Bytes)
    ensures c == 95 || c == 45 || c == 32 ==> NormalizeForMatch(p + [c] + q) == NormalizeForMatch(p + q)
    ensures 65 <= c <= 90 ==> NormalizeForMatch(p + [c] + q) == NormalizeForMatch(p + [c + 32] + q)
  {
    hide NormalizeForMatch;
    NormalFormByByte(p, c, q);
    NormalizeConcat(p, q);
    if 65 <= c <= 90 {
      NormalFormByByte(p, c + 32, q);
    }
  }

  /** A normal form has no capitals and no separators, and is left alone by normalising again. */
  lemma {:induction false} NormalFormIsFixed(s: Bytes)
    ensures IsNormal(NormalizeForMatch(s))
    ensures NormalizeForMatch(s) == s <==> IsNormal(s)
    ensures NormalizeForMatch(NormalizeForMatch(s)) == NormalizeForMatch(s)
  {
    NormalizeIsNormal(s);
    if IsNormal(s) {
      NormalUnchanged(s);
    }
    NormalUnchanged(NormalizeForMatch(s));
  }

  lemma {:induction false} NormalizeIsNormal(s: Bytes)
    ensures IsNormal(NormalizeForMatch(s))
  {
    if s == [] {
      assert ToLower(s) == [];
    } else {
      assert s == [s[0]] + s[1..];
      NormalizeConcat([s[0]], s[1..]);
      NormalizeByte(s[0]);
      NormalizeIsNormal(s[1..]);
    }
  }

  lemma {:induction false} NormalUnchanged(s: Bytes)
    requires IsNormal(s)
    ensures NormalizeForMatch(s) == s
  {
    if s == [] {
      assert ToLower(s) == [];
    } else {
      assert s == [s[0]] + s[1..];
      NormalizeConcat([s[0]], s[1..]);
      NormalizeByte(s[0]);
      NormalUnchanged(s[1..]);
    }
  }

  // ----- Choosing a target

  datatype TargetField = TargetField(id: string, fieldName: Bytes)

  datatype MappingRule = MappingRule(sourceId: string, targetFieldId: string, sourceField: Bytes)

  /** How far a source field is from a target field. */
  function Distance(sourceField: Bytes, t: TargetField): nat {
    Dist(NormalizeForMatch(sourceField), NormalizeForMatch(t.fieldName))
  }

  /** `choice` is the earliest of the nearest targets, and nothing only if every target is out of reach. */
  ghost predicate IsChoice(sourceField: Bytes, targets: seq<TargetField>, choice: Option<nat>) {
    match choice
    case None => forall t <- targets :: Distance(sourceField, t) > 3
    case Some(k) =>
      && k < |targets|
      && Distance(sourceField, targets[k]) <= 3
      && (forall j :: 0 <= j < |targets| ==> Distance(sourceField, targets[k]) <= Distance(sourceField, targets[j]))
      && (forall j :: 0 <= j < k ==> Distance(sourceField, targets[k]) < Distance(sourceField, targets[j]))
  }

  lemma ChoiceIsUnique(sourceField: Bytes, targets: seq<TargetField>, c: Option<nat>, d: Option<nat>)
    requires IsChoice(sourceField, targets, c) && IsChoice(sourceField, targets, d)
    ensures c == d
  {
    forall k: nat | k < |targets|
      ensures targets[k] in targets
    {}
  }

  /** The earliest of the nearest targets, by recursion over the list. */
  function Choice(sourceField: Bytes, targets: seq<TargetField>): Option<nat> {
    if targets == [] then
      None
    else
      var n := |targets| - 1;
      var before := Choice(sourceField, targets[..n]);
      var d := Distance(sourceField, targets[n]);
      if d > MAX_EDITS || (before.Some? && before.value < n && Distance(sourceField, targets[before.value]) <= d) then
        before
      else
        Some(n)
  }

  lemma {:induction false} ChoiceIsChoice(sourceField: Bytes, targets: seq<TargetField>)
    ensures IsChoice(sourceField, targets, Choice(sourceField, targets))
  {
    hide Distance;
    if targets != [] {
      var n := |targets| - 1;
      ChoiceIsChoice(sourceField, targets[..n]);
      ChoiceOrLast(sourceField, targets, Choice(sourceField, targets[..n]));
    }
  }

  /** The last target is chosen if it is within reach and nearer than what was chosen before it. */
  lemma ChoiceOrLast(sourceField: Bytes, targets: seq<TargetField>, before: Option<nat>)
    requires targets != [] && IsChoice(sourceField, targets[..|targets| - 1], before)
    ensures var (n, d) := (|targets| - 1, Distance(sourceField, targets[|targets| - 1]));
            IsChoice(sourceField, targets,
                     if d > 3 || (before.Some? && Distance(sourceField, targets[before.value]) <= d) then before
                     else Some(n))
  {
    hide Distance;
    var n := |targets| - 1;
    assert targets == targets[..n] + [targets[n]];
    assert forall j | 0 <= j < n :: targets[..n][j] == targets[j] && targets[j] in targets[..n];
  }

  lemma ChoiceOfOneMore(sourceField: Bytes, targets: seq<TargetField>, i: nat)
    requires i < |targets|
    ensures var before := Choice(sourceField, targets[..i]);
            var d := Distance(sourceField, targets[i]);
            && (before.Some? ==> before.value < i && Distance(sourceField, targets[before.value]) <= MAX_EDITS)
            && Choice(sourceField, targets[..i + 1]) ==
               if d > MAX_EDITS || (before.Some? && Distance(sourceField, targets[before.value]) <= d) then before
                   else Some(i)
  {
    ChoiceIsChoice(sourceField, targets[..i]);
    assert targets[..i + 1][..i] == targets[..i];
  }

  /** The inner loop of `handleAutoMap`. */
  method FindTarget(sourceField: Bytes, targets: seq<TargetField>) returns (best: Option<nat>)
    ensures IsChoice(sourceField, targets, best)
  {
    var normSf := NormalizeForMatch(sourceField);
    best := None;
    var bestDist := NO_MATCH_YET;
    assert best == Choice(sourceField, targets[..0]);
    hide Choice, NormalizeForMatch, Dist, IsEditDistance;
    for i := 0 to |targets|
      invariant best == Choice(sourceField, targets[..i])
      invariant match best
                case None => bestDist == NO_MATCH_YET
                case Some(k) => k < i && bestDist == Distance(sourceField, targets[k])
    {
      var dist := L.Levenshtein(normSf, NormalizeForMatch(targets[i].fieldName));
      ChoiceOfOneMore(sourceField, targets, i);
      if dist < bestDist && dist <= MAX_EDITS {
        bestDist := dist;
        best := Some(i);
      }
    }
    assert targets[..|targets|] == targets;
    ChoiceIsChoice(sourceField, targets);
  }

  // ----- The whole request

  /** The rule a chosen target gives. */
  function RuleFor(sourceId: string, field: Bytes, targets: seq<TargetField>, k: nat): MappingRule
    requires k < |targets|
  {
    MappingRule(sourceId, targets[k].id, field)
  }

  /** One rule for each field that has a choice and whose rule the database stored, in the order of the fields. */
  function RulesOf(sourceId: string, fields: seq<Bytes>, targets: seq<TargetField>,
      stored: seq<bool>): (rules: seq<MappingRule>)
    requires |stored| == |fields|
    ensures |rules| <= |fields|
  {
    if fields == [] then
      []
    else
      var n := |fields| - 1;
      var before := RulesOf(sourceId, fields[..n], targets, stored[..n]);
      var k := Choice(fields[n], targets);
      if k.Some? && k.value < |targets| && stored[n] then
        before + [RuleFor(sourceId, fields[n], targets, k.value)]
      else
        before
  }

  lemma FoundIsChoice(field: Bytes, targets: seq<TargetField>, best: Option<nat>)
    requires IsChoice(field, targets, best)
    ensures best == Choice(field, targets) && (best.Some? ==> best.value < |targets|)
  {
    ChoiceIsChoice(field, targets);
    ChoiceIsUnique(field, targets, best, Choice(field, targets));
    hide Choice, Distance;
  }

  /** The loop of `handleAutoMap`; `stored[i]` says whether the database accepts the rule for field `i`. */
  method AutoMap(sourceId: string, fields: seq<Bytes>, targets: seq<TargetField>, stored: seq<bool>)
    returns (createdRules: seq<MappingRule>)
    requires |stored| == |fields|
    ensures createdRules == RulesOf(sourceId, fields, targets, stored)
  {
    hide Choice, IsChoice, RuleFor;
    createdRules := [];
    for i := 0 to |fields|
      invariant createdRules == RulesOf(sourceId, fields[..i], targets, stored[..i])
    {
      var best := FindTarget(fields[i], targets);
      FoundIsChoice(fields[i], targets, best);
      if best.Some? && stored[i] {
        createdRules := createdRules + [RuleFor(sourceId, fields[i], targets, best.value)];
      }
      assert fields[..i + 1][..i] == fields[..i] && stored[..i + 1][..i] == stored[..i];
    }
    assert fields[..|fields|] == fields && stored[..|fields|] == stored;
  }

  /** `rule` maps the requested field `i` to its choice, and the database stored it. */
  ghost predicate MapsField(sourceId: string, fields: seq<Bytes>, targets: seq<TargetField>, stored: seq<bool>,
      rule: MappingRule, i: nat)
    requires |stored| == |fields|
  {
    && i < |fields|
    && stored[i]
    && rule.sourceId == sourceId
    && rule.sourceField == fields[i]
    && exists k: nat :: IsChoice(fields[i], targets, Some(k)) && rule.targetFieldId == targets[k].id
  }

  lemma MapsFieldIffChoice(sourceId: string, fields: seq<Bytes>, targets: seq<TargetField>, stored: seq<bool>,
      rule: MappingRule, i: nat)
    requires |stored| == |fields| && i < |fields|
    ensures MapsField(sourceId, fields, targets, stored, rule, i) <==>
            stored[i] && var c := Choice(fields[i], targets);
              c.Some? && c.value < |targets| && rule == RuleFor(sourceId, fields[i], targets, c.value)
  {
    var c := Choice(fields[i], targets);
    ChoiceIsChoice(fields[i], targets);
    forall k: nat | IsChoice(fields[i], targets, Some(k))
      ensures c == Some(k)
    {
      ChoiceIsUnique(fields[i], targets, c, Some(k));
    }
  }

  lemma MapsFieldPrefix(sourceId: string, fields: seq<Bytes>, targets: seq<TargetField>, stored: seq<bool>,
      rule: MappingRule, i: nat, n: nat)
    requires |stored| == |fields| && i < n <= |fields|
    ensures MapsField(sourceId, fields, targets, stored, rule, i) <==>
            MapsField(sourceId, fields[..n], targets, stored[..n], rule, i)
  {
    hide IsChoice;
    assert fields[..n][i] == fields[i] && stored[..n][i] == stored[i];
  }

  /** The rules made are exactly those mapping a requested field to the earliest of its nearest targets. */
  lemma {:induction false} RulesAreTheChoices(sourceId: string, fields: seq<Bytes>, targets: seq<TargetField>,
      stored: seq<bool>, rule: MappingRule)
    requires |stored| == |fields|
    ensures rule in RulesOf(sourceId, fields, targets, stored) <==>
            exists i: nat :: MapsField(sourceId, fields, targets, stored, rule, i)
  {
    hide Choice, IsChoice;
    if fields != [] {
      var n := |fields| - 1;
      RulesAreTheChoices(sourceId, fields[..n], targets, stored[..n], rule);
      MapsFieldIffChoice(sourceId, fields, targets, stored, rule, n);
      forall i: nat | i < n
        ensures MapsField(sourceId, fields, targets, stored, rule, i) <==>
                MapsField(sourceId, fields[..n], targets, stored[..n], rule, i)
      {
        MapsFieldPrefix(sourceId, fields, targets, stored, rule, i, n);
      }
    }
  }

  /** The turns of the loop that make a rule. */
  function Turns(fields: seq<Bytes>, targets: seq<TargetField>, stored: seq<bool>): seq<nat>
    requires |stored| == |fields|
  {
    if fields == [] then
      []
    else
      var n := |fields| - 1;
      Turns(fields[..n], targets, stored[..n]) + if Choice(fields[n], targets).Some? && stored[n] then [n] else []
  }

  lemma {:induction false} TurnsAre(fields: seq<Bytes>, targets: seq<TargetField>, stored: seq<bool>)
    requires |stored| == |fields|
    ensures forall i <- Turns(fields, targets, stored) :: i < |fields|
    ensures forall i: nat :: i < |fields| ==>
            (i in Turns(fields, targets, stored) <==> stored[i] && Choice(fields[i], targets).Some?)
  {
    hide Choice;
    if fields != [] {
      var n := |fields| - 1;
      TurnsAre(fields[..n], targets, stored[..n]);
    }
  }

  lemma {:induction false} TurnsIncrease(fields: seq<Bytes>, targets: seq<TargetField>, stored: seq<bool>)
    requires |stored| == |fields|
    ensures forall i, j :: 0 <= i < j < |Turns(fields, targets, stored)| ==>
            Turns(fields, targets, stored)[i] < Turns(fields, targets, stored)[j]
  {
    hide Choice;
    if fields != [] {
      var n := |fields| - 1;
      TurnsAre(fields[..n], targets, stored[..n]);
      TurnsIncrease(fields[..n], targets, stored[..n]);
      var before := Turns(fields[..n], targets, stored[..n]);
      assert forall i | 0 <= i < |before| :: before[i] in before;
    }
  }

  lemma {:induction false} RuleOfTurn(sourceId: string, fields: seq<Bytes>, targets: seq<TargetField>,
      stored: seq<bool>, i: nat)
    requires |stored| == |fields|
    ensures |RulesOf(sourceId, fields, targets, stored)| == |Turns(fields, targets, stored)|
    ensures i < |Turns(fields, targets, stored)| ==>
              var turn := Turns(fields, targets, stored)[i];
              turn < |fields| && stored[turn] && var k := Choice(fields[turn], targets);
              k.Some? && k.value < |targets|
                  && RulesOf(sourceId, fields, targets, stored)[i] == RuleFor(sourceId, fields[turn], targets, k.value)
  {
    hide Choice, RuleFor, IsChoice;
    if fields != [] {
      var n := |fields| - 1;
      ChoiceInRange(fields[n], targets);
      RuleOfTurn(sourceId, fields[..n], targets, stored[..n], i);
    }
  }

  lemma ChoiceInRange(field: Bytes, targets: seq<TargetField>)
    ensures Choice(field, targets).Some? ==> Choice(field, targets).value < |targets|
  {
    ChoiceIsChoice(field, targets);
  }

  /** The rules come in the order of the fields, one for each field that has a choice and whose rule was stored. */
  lemma RulesFollowTheFields(sourceId: string, fields: seq<Bytes>, targets: seq<TargetField>, stored: seq<bool>)
    returns (at: seq<nat>)
    requires |stored| == |fields|
    ensures var rules := RulesOf(sourceId, fields, targets, stored);
            && |at| == |rules|
            && (forall i, j :: 0 <= i < j < |at| ==> at[i] < at[j])
            && (forall i :: 0 <= i < |at| ==> MapsField(sourceId, fields, targets, stored, rules[i], at[i]))
            && (forall i: nat, rule :: MapsField(sourceId, fields, targets, stored, rule, i) ==> i in at)
  {
    at := Turns(fields, targets, stored);
    TurnsAre(fields, targets, stored);
    TurnsIncrease(fields, targets, stored);
    RuleOfTurn(sourceId, fields, targets, stored, 0);
    var rules := RulesOf(sourceId, fields, targets, stored);
    forall i | 0 <= i < |at|
      ensures MapsField(sourceId, fields, targets, stored, rules[i], at[i])
    {
      RuleOfTurn(sourceId, fields, targets, stored, i);
      MapsFieldIffChoice(sourceId, fields, targets, stored, rules[i], at[i]);
    }
    forall i: nat, rule | MapsField(sourceId, fields, targets, stored, rule, i)
      ensures i in at
    {
      MapsFieldIffChoice(sourceId, fields, targets, stored, rule, i);
    }
    hide Choice, RulesOf, Turns, IsChoice, RuleFor;
  }

  /** A field is mapped exactly when three edits or fewer turn its normalised name into that of some target. */
  lemma MappedIffWithinThreeEdits(field: Bytes, targets: seq<TargetField>)
    ensures Choice(field, targets).Some? <==>
            exists t, script :: t in targets && |script| <= 3 &&
              Transforms(script, NormalizeForMatch(field), NormalizeForMatch(t.fieldName))
  {
    ChoiceIsChoice(field, targets);
    var c := Choice(field, targets);
    if c.Some? {
      var t := targets[c.value];
      var script := ShortestScript(NormalizeForMatch(field), NormalizeForMatch(t.fieldName));
      assert t in targets && |script| <= 3;
    }
    forall t, script | t in targets && Transforms(script, NormalizeForMatch(field), NormalizeForMatch(t.fieldName))
      ensures Distance(field, t) <= |script|
    {
      NoShorterScript(script, NormalizeForMatch(field), NormalizeForMatch(t.fieldName));
    }
  }

  /** The chosen target in terms of scripts: three edits or fewer lead to it, and no fewer to any other. */
  lemma ChosenByScripts(field: Bytes, targets: seq<TargetField>, k: nat) returns (script: seq<Edit>)
    requires IsChoice(field, targets, Some(k))
    ensures |script| <= 3 && Transforms(script, NormalizeForMatch(field), NormalizeForMatch(targets[k].fieldName))
    ensures forall j, other |
              0 <= j < |targets|
              && Transforms(other, NormalizeForMatch(field), NormalizeForMatch(targets[j].fieldName)) ::
              |script| <= |other| && (j < k ==> |script| < |other|)
  {
    script := ShortestScript(NormalizeForMatch(field), NormalizeForMatch(targets[k].fieldName));
    forall j, other | 0 <= j < |targets|
        && Transforms(other, NormalizeForMatch(field), NormalizeForMatch(targets[j].fieldName))
      ensures |script| <= |other| && (j < k ==> |script| < |other|)
    {
      NoShorterScript(other, NormalizeForMatch(field), NormalizeForMatch(targets[j].fieldName));
    }
  }

  /** A target with the same normalised name wins, the first of them if there are several. */
  lemma SameNameWins(field: Bytes, targets: seq<TargetField>, j: nat)
    requires j < |targets| && NormalizeForMatch(targets[j].fieldName) == NormalizeForMatch(field)
    requires forall i :: 0 <= i < j ==> NormalizeForMatch(targets[i].fieldName) != NormalizeForMatch(field)
    ensures Choice(field, targets) == Some(j)
  {
    ChoiceIsChoice(field, targets);
    forall i | 0 <= i < |targets|
      ensures Distance(field, targets[i]) == 0 <==> NormalizeForMatch(targets[i].fieldName) == NormalizeForMatch(field)
    {
      ZeroIffEqual(NormalizeForMatch(field), NormalizeForMatch(targets[i].fieldName));
    }
    assert targets[j] in targets;
    ChoiceIsUnique(field, targets, Choice(field, targets), Some(j));
  }
}
