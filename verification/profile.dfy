/** The profile analyser: integer player statistics mapped to a skill level,
    a playstyle, archetype labels and strength and weakness labels. Every
    rule is a fixed threshold comparison and labels are appended in a fixed
    order. */
module Profile {
  import opened Seqs
  import opened Rates

  datatype Badge = Badge(name: string, level: int)

  /** The fields of a player record the analyser reads. Battle counts are
      non-negative, as the statistics service reports them. */
  datatype PlayerStats = PlayerStats(
    trophies: int,
    wins: nat,
    losses: nat,
    threeCrownWins: nat,
    challengeMaxWins: int,
    warDayWins: int,
    badges: seq<Badge>)

  datatype SkillLevel = Beginner | Intermediate | Advanced | Expert

  datatype Playstyle = Aggressive | Control | Balanced

  datatype PlayerAnalysis = PlayerAnalysis(
    playstyle: Playstyle,
    skillLevel: SkillLevel,
    preferredArchetypes: seq<string>,
    strengthAreas: seq<string>,
    weaknessAreas: seq<string>)

  const ArchetypeLabels: seq<string> := ["LavaLoon", "Miner Control", "Graveyard"]
  const StrengthLabels: seq<string> := ["tournament", "ladder", "beatdown", "war"]
  const WeaknessLabels: seq<string> := ["challenges", "consistency", "closing games"]

  /** Number of challenge wins the challenge rate is measured against. */
  const ChallengeWinsScale: nat := 12

  // ---- The three ratios, with JavaScript's division semantics ----

  /** `wins / (wins + losses)`; the source scales it by 100 before comparing. */
  function WinRate(s: PlayerStats): Rate {
    Divide(s.wins, s.wins + s.losses)
  }

  /** `threeCrownWins / wins`; the source scales it by 100 before comparing. */
  function ThreeCrownRate(s: PlayerStats): Rate {
    Divide(s.threeCrownWins, s.wins)
  }

  /** `challengeMaxWins / 12`. */
  function ChallengeWinRate(s: PlayerStats): Rate {
    Divide(s.challengeMaxWins, ChallengeWinsScale)
  }

  // ---- The same thresholds as integer cross-multiplication ----

  /** The win percentage is above `t`; never true without any battle. */
  predicate WinPercentAbove(s: PlayerStats, t: int) {
    100 * s.wins > t * (s.wins + s.losses)
  }

  /** The win percentage is below `t`; never true without any battle. */
  predicate WinPercentBelow(s: PlayerStats, t: int) {
    100 * s.wins < t * (s.wins + s.losses)
  }

  /** The three-crown percentage is above `t`; with no wins this holds
      exactly when some three-crown win is recorded (the rate is infinite). */
  predicate ThreeCrownPercentAbove(s: PlayerStats, t: int) {
    100 * s.threeCrownWins > t * s.wins
  }

  /** The three-crown percentage is below `t`; never true with no wins. */
  predicate ThreeCrownPercentBelow(s: PlayerStats, t: int) {
    100 * s.threeCrownWins < t * s.wins
  }

  /** Some badge of exactly this name has a level above 5. */
  ghost predicate Mastered(badges: seq<Badge>, name: string) {
    exists b :: b in badges && b.name == name && b.level > 5
  }

  // ---- Skill level ----

  /** Trophy thresholds, tested in the order expert, advanced, beginner;
      every trophy count falls in exactly one of four ranges. */
  function ClassifySkill(trophies: int): (level: SkillLevel)
    ensures level == Expert <==> trophies > 7000
    ensures level == Advanced <==> 6000 < trophies <= 7000
    ensures level == Intermediate <==> 4000 <= trophies <= 6000
    ensures level == Beginner <==> trophies < 4000
  {
    if trophies > 7000 then Expert
    else if trophies > 6000 then Advanced
    else if trophies < 4000 then Beginner
    else Intermediate
  }

  // ---- Playstyle ----

  /** Aggressive when the three-crown rate is above 40 %; otherwise control
      when the win rate is above 55 % and the three-crown rate below 30 %;
      otherwise balanced. */
  function ClassifyPlaystyle(s: PlayerStats): (style: Playstyle)
    ensures style == Aggressive <==> ThreeCrownPercentAbove(s, 40)
    ensures style == Control <==>
      !ThreeCrownPercentAbove(s, 40) && WinPercentAbove(s, 55) && ThreeCrownPercentBelow(s, 30)
    ensures style == Balanced <==>
      !ThreeCrownPercentAbove(s, 40) && !(WinPercentAbove(s, 55) && ThreeCrownPercentBelow(s, 30))
    ensures s.wins + s.losses == 0 ==> style != Control
  {
    CrossMultiplication(s.threeCrownWins, s.wins, 40, 100);
    CrossMultiplication(s.threeCrownWins, s.wins, 30, 100);
    CrossMultiplication(s.wins, s.wins + s.losses, 55, 100);
    if Exceeds(ThreeCrownRate(s), 40, 100) then Aggressive
    else if Exceeds(WinRate(s), 55, 100) && Below(ThreeCrownRate(s), 30, 100) then Control
    else Balanced
  }

  // ---- Archetypes ----

  /** `name.startsWith("Mastery")`. */
  predicate IsMasteryBadge(b: Badge) {
    "Mastery" <= b.name
  }

  /** The badges whose name starts with "Mastery", in order. */
  function MasteryBadges(badges: seq<Badge>): (r: seq<Badge>)
    ensures forall b :: b in r <==> b in badges && IsMasteryBadge(b)
  {
    if badges == [] then []
    else (if IsMasteryBadge(badges[0]) then [badges[0]] else []) + MasteryBadges(badges[1..])
  }

  /** `badges.some(b => b.name === name && b.level > 5)`. */
  function AnyMastered(badges: seq<Badge>, name: string): (r: bool)
    ensures r <==> Mastered(badges, name)
  {
    if badges == [] then false
    else (badges[0].name == name && badges[0].level > 5) || AnyMastered(badges[1..], name)
  }

  /** The archetype labels, in the fixed order LavaLoon, Miner Control,
      Graveyard, each present exactly when its mastery badge is above level 5. */
  function PreferredArchetypes(badges: seq<Badge>): (r: seq<string>)
    ensures IsSubsequence(r, ArchetypeLabels)
    ensures |r| <= 3
    ensures "LavaLoon" in r <==> Mastered(badges, "MasteryLavaHound")
    ensures "Miner Control" in r <==> Mastered(badges, "MasteryMiner")
    ensures "Graveyard" in r <==> Mastered(badges, "MasteryTombstone")
  {
    var mastery := MasteryBadges(badges);
    var keep := [AnyMastered(mastery, "MasteryLavaHound"),
                 AnyMastered(mastery, "MasteryMiner"),
                 AnyMastered(mastery, "MasteryTombstone")];
    MasteryPrefilterIsRedundant(badges, "MasteryLavaHound");
    MasteryPrefilterIsRedundant(badges, "MasteryMiner");
    MasteryPrefilterIsRedundant(badges, "MasteryTombstone");
    SelectIsSubsequence(ArchetypeLabels, keep);
    SelectMembership(ArchetypeLabels, keep, 0);
    SelectMembership(ArchetypeLabels, keep, 1);
    SelectMembership(ArchetypeLabels, keep, 2);
    Select(ArchetypeLabels, keep)
  }

  /** Filtering on the "Mastery" prefix first changes nothing for a name that
      has that prefix. */
  lemma {:induction false} MasteryPrefilterIsRedundant(badges: seq<Badge>, name: string)
    requires "Mastery" <= name
    ensures Mastered(MasteryBadges(badges), name) <==> Mastered(badges, name)
  {
    if Mastered(badges, name) {
      var b :| b in badges && b.name == name && b.level > 5;
      assert b in MasteryBadges(badges);
    }
  }

  /** The archetypes depend only on which badges the player holds, not on
      the order the record lists them in. */
  lemma {:induction false} ArchetypesIgnoreBadgeOrder(b1: seq<Badge>, b2: seq<Badge>)
    requires forall b :: b in b1 <==> b in b2
    ensures PreferredArchetypes(b1) == PreferredArchetypes(b2)
  {
    var r1 := PreferredArchetypes(b1);
    var r2 := PreferredArchetypes(b2);
    SubsequenceElements(r1, ArchetypeLabels);
    SubsequenceElements(r2, ArchetypeLabels);
    assert Mastered(b1, "MasteryLavaHound") <==> Mastered(b2, "MasteryLavaHound");
    assert Mastered(b1, "MasteryMiner") <==> Mastered(b2, "MasteryMiner");
    assert Mastered(b1, "MasteryTombstone") <==> Mastered(b2, "MasteryTombstone");
    forall x ensures x in r1 <==> x in r2 {
    }
    SubsequenceDeterminedByMembers(r1, r2, ArchetypeLabels);
  }

  // ---- Strengths and weaknesses ----

  /** Strength labels in the fixed order tournament, ladder, beatdown, war. */
  function StrengthAreas(s: PlayerStats): (r: seq<string>)
    ensures IsSubsequence(r, StrengthLabels)
    ensures "tournament" in r <==> s.challengeMaxWins >= 15
    ensures "ladder" in r <==> WinPercentAbove(s, 55)
    ensures "beatdown" in r <==> ThreeCrownPercentAbove(s, 40)
    ensures "war" in r <==> s.warDayWins > 200
  {
    var keep := [s.challengeMaxWins >= 15,
                 Exceeds(WinRate(s), 55, 100),
                 Exceeds(ThreeCrownRate(s), 40, 100),
                 s.warDayWins > 200];
    CrossMultiplication(s.wins, s.wins + s.losses, 55, 100);
    CrossMultiplication(s.threeCrownWins, s.wins, 40, 100);
    SelectIsSubsequence(StrengthLabels, keep);
    SelectMembership(StrengthLabels, keep, 0);
    SelectMembership(StrengthLabels, keep, 1);
    SelectMembership(StrengthLabels, keep, 2);
    SelectMembership(StrengthLabels, keep, 3);
    Select(StrengthLabels, keep)
  }

  /** Weakness labels in the fixed order challenges, consistency, closing
      games. A challenge rate below one half means fewer than 6 wins. */
  function WeaknessAreas(s: PlayerStats): (r: seq<string>)
    ensures IsSubsequence(r, WeaknessLabels)
    ensures "challenges" in r <==> s.challengeMaxWins < 6
    ensures "consistency" in r <==> WinPercentBelow(s, 50)
    ensures "closing games" in r <==> ThreeCrownPercentBelow(s, 20)
  {
    var keep := [Below(ChallengeWinRate(s), 1, 2),
                 Below(WinRate(s), 50, 100),
                 Below(ThreeCrownRate(s), 20, 100)];
    CrossMultiplication(s.wins, s.wins + s.losses, 50, 100);
    CrossMultiplication(s.threeCrownWins, s.wins, 20, 100);
    SelectIsSubsequence(WeaknessLabels, keep);
    SelectMembership(WeaknessLabels, keep, 0);
    SelectMembership(WeaknessLabels, keep, 1);
    SelectMembership(WeaknessLabels, keep, 2);
    Select(WeaknessLabels, keep)
  }

  // ---- The whole analysis ----

  /** The analysis of one player record, and how its parts agree: the
      beatdown strength and the aggressive playstyle come from the same
      test, and a player is never both strong on the ladder and weak in
      consistency. */
  function AnalyzePlayerProfile(s: PlayerStats): (a: PlayerAnalysis)
    ensures a.skillLevel == Expert <==> s.trophies > 7000
    ensures "beatdown" in a.strengthAreas <==> a.playstyle == Aggressive
    ensures !("ladder" in a.strengthAreas && "consistency" in a.weaknessAreas)
    ensures a.playstyle == Control ==> "ladder" in a.strengthAreas
    ensures "closing games" in a.weaknessAreas ==> a.playstyle != Aggressive
    ensures IsSubsequence(a.preferredArchetypes, ArchetypeLabels)
    ensures IsSubsequence(a.strengthAreas, StrengthLabels)
    ensures IsSubsequence(a.weaknessAreas, WeaknessLabels)
  {
    PlayerAnalysis(
      ClassifyPlaystyle(s),
      ClassifySkill(s.trophies),
      PreferredArchetypes(s.badges),
      StrengthAreas(s),
      WeaknessAreas(s))
  }
}
