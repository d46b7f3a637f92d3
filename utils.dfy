/**
 * The gamification arithmetic and display helpers of the web client
 * (apps/web/lib/utils.ts): XP and levels, durations, room codes and the
 * difficulty and league-tier colour tables.
 */
module Utils {
  import Text

  // ---------- XP and levels ----------

  /** Total XP at which `level` is reached: level squared times 100. */
  function XpForLevel(level: int): (xp: int)
    ensures xp >= 0
    ensures xp % 100 == 0
    ensures xp == 0 <==> level == 0
  {
    level * level * 100
  }

  /** XP thresholds grow with the level. */
  lemma XpForLevelMonotone(a: int, b: int)
    requires 0 <= a <= b
    ensures XpForLevel(a) <= XpForLevel(b)
  {
    assert a * a <= a * b <= b * b;
  }

  /** Squaring is monotone on the naturals. */
  lemma SquareMonotone(a: nat, b: nat)
    requires a <= b
    ensures a * a <= b * b
  {
    assert a * a <= a * b by { MulLeft(a, a, b); }
    assert a * b <= b * b by { MulLeft(b, a, b); }
  }

  lemma MulLeft(c: nat, a: nat, b: nat)
    requires a <= b
    ensures c * a <= c * b
  {
    assert c * b - c * a == c * (b - a);
  }

  /** Doubling a square root of `n / 4` brackets the square root of `n`. */
  lemma ISqrtDouble(n: nat, h: nat)
    requires h * h <= n / 4 < (h + 1) * (h + 1)
    ensures (2 * h) * (2 * h) <= n < (2 * h + 2) * (2 * h + 2)
  {
    var q := n / 4;
    assert (2 * h) * (2 * h) == 4 * (h * h);
    assert (2 * h + 2) * (2 * h + 2) == 4 * ((h + 1) * (h + 1));
    assert 4 * q <= n < 4 * q + 4;
  }

  /** The integer square root: the largest `r` with `r * r <= n`. */
  function ISqrt(n: nat): (r: nat)
    ensures r * r <= n < (r + 1) * (r + 1)
  {
    if n == 0 then 0
    else
      var h := ISqrt(n / 4);
      ISqrtDouble(n, h);
      var r := 2 * h;
      if (r + 1) * (r + 1) <= n then
        assert (r + 2) * (r + 2) == (2 * h + 2) * (2 * h + 2);
        r + 1
      else r
  }

  /** The bracket `r * r <= n < (r + 1) * (r + 1)` pins `r` down. */
  lemma ISqrtUnique(n: nat, r: nat)
    requires r * r <= n < (r + 1) * (r + 1)
    ensures r == ISqrt(n)
  {
    var q := ISqrt(n);
    if q < r {
      SquareMonotone(q + 1, r);
    } else if r < q {
      SquareMonotone(r + 1, q);
    }
  }

  /**
   * The level of a player with `xp` total XP. On non-negative integers
   * `floor(sqrt(xp / 100))` is the integer square root of `xp div 100`.
   */
  function LevelFromXp(xp: nat): (level: nat)
    ensures level >= 1
    ensures XpForLevel(level - 1) <= xp < XpForLevel(level)
  {
    var r := ISqrt(xp / 100);
    assert 100 * (r * r) <= xp;
    assert xp < 100 * ((r + 1) * (r + 1));
    r + 1
  }

  /** A player with no XP is at level 1. */
  lemma LevelFromXpZero()
    ensures LevelFromXp(0) == 1
  {
    assert ISqrt(0) == 0;
  }

  /** The bracket of XpForLevel values is an independent definition of the level. */
  lemma LevelFromXpUnique(xp: nat, level: int)
    requires level >= 1
    requires XpForLevel(level - 1) <= xp < XpForLevel(level)
    ensures LevelFromXp(xp) == level
  {
    var r: nat := level - 1;
    assert 100 * (r * r) <= xp < 100 * ((r + 1) * (r + 1));
    assert r * r <= xp / 100;
    assert xp / 100 < (r + 1) * (r + 1);
    ISqrtUnique(xp / 100, r);
  }

  /** More XP never lowers the level. */
  lemma LevelFromXpMonotone(a: nat, b: nat)
    requires a <= b
    ensures LevelFromXp(a) <= LevelFromXp(b)
  {
    var la, lb := LevelFromXp(a), LevelFromXp(b);
    if lb < la {
      XpForLevelMonotone(lb, la - 1);
      assert false;
    }
  }

  // ---------- durations ----------

  /** Hours, minutes and seconds of a duration given in seconds. */
  function SplitDuration(seconds: nat): (hms: (nat, nat, nat))
    ensures hms.0 * 3600 + hms.1 * 60 + hms.2 == seconds
    ensures hms.1 < 60 && hms.2 < 60
  {
    (seconds / 3600, (seconds % 3600) / 60, seconds % 60)
  }

  /** A minute or second count padded to two digits. */
  function TwoDigits(n: nat): string {
    Text.PadStart(Text.NatToString(n), 2, '0')
  }

  /** `h:mm:ss` when there is at least one hour, `m:ss` otherwise. */
  function FormatDuration(seconds: nat): (text: string)
    ensures ParseDuration(text) == seconds
  {
    var (h, m, s) := SplitDuration(seconds);
    if h > 0 then
      ParseLongForm(h, m, s);
      Text.NatToString(h) + ":" + TwoDigits(m) + ":" + TwoDigits(s)
    else
      ParseShortForm(m, s);
      Text.NatToString(m) + ":" + TwoDigits(s)
  }

  /** Reads a `h:mm:ss` or `m:ss` string back into seconds; -1 for anything else. */
  function ParseDuration(text: string): int {
    ParseFields(Text.Split(text, ':'))
  }

  /** Three digit fields are hours, minutes and seconds; two are minutes and seconds. */
  function ParseFields(fields: seq<string>): int {
    if |fields| == 3 && AllDigits(fields[0]) && AllDigits(fields[1]) && AllDigits(fields[2]) then
      Text.ParseNat(fields[0]) * 3600 + Text.ParseNat(fields[1]) * 60 + Text.ParseNat(fields[2])
    else if |fields| == 2 && AllDigits(fields[0]) && AllDigits(fields[1]) then
      Text.ParseNat(fields[0]) * 60 + Text.ParseNat(fields[1])
    else -1
  }

  predicate AllDigits(s: string) {
    forall i :: 0 <= i < |s| ==> Text.IsDigit(s[i])
  }

  /** A minute or second count (under 60) pads to two digits that parse back to the count. */
  lemma TwoDigitsFacts(n: nat)
    requires n < 60
    ensures |TwoDigits(n)| == 2
    ensures AllDigits(TwoDigits(n)) && ':' !in TwoDigits(n)
    ensures Text.ParseNat(TwoDigits(n)) == n
  {
    var d, t := Text.NatToString(n), TwoDigits(n);
    Text.ParseNatToString(n);
    if n < 10 {
      assert t == ['0'] + d;
      Text.ParseNatLeadingZero(d);
    } else {
      assert n / 10 < 10;
      assert |d| == 2;
      assert t == d;
    }
    assert AllDigits(t);
    DigitsNoColon(t);
  }

  lemma DigitsNoColon(t: string)
    requires AllDigits(t)
    ensures ':' !in t
  {
    assert forall i :: 0 <= i < |t| ==> t[i] != ':';
  }

  /** Splitting `a:b` on the colon when neither piece has one. */
  lemma SplitTwo(a: string, b: string)
    requires ':' !in a && ':' !in b
    ensures Text.Split(a + ":" + b, ':') == [a, b]
  {
    Text.SplitJoin(a, ':', b);
    assert a + ":" + b == a + [':'] + b;
  }

  /** Splitting `a:b:c` on the colon when no piece has one. */
  lemma SplitThree(a: string, b: string, c: string)
    requires ':' !in a && ':' !in b && ':' !in c
    ensures Text.Split(a + ":" + b + ":" + c, ':') == [a, b, c]
  {
    var bc := b + ":" + c;
    SplitTwo(b, c);
    assert a + ":" + b + ":" + c == a + [':'] + bc;
    Text.SplitJoin(a, ':', bc);
  }

  lemma NoColonInNumber(n: nat)
    ensures AllDigits(Text.NatToString(n)) && ':' !in Text.NatToString(n)
  {
    var d := Text.NatToString(n);
    assert AllDigits(d);
    DigitsNoColon(d);
  }

  /** Three colon-free digit strings joined by colons read back as hours, minutes and seconds. */
  lemma ParseThreeFields(a: string, b: string, c: string)
    requires ':' !in a && ':' !in b && ':' !in c
    requires AllDigits(a) && AllDigits(b) && AllDigits(c)
    ensures ParseDuration(a + ":" + b + ":" + c) == Text.ParseNat(a) * 3600 + Text.ParseNat(b) * 60 + Text.ParseNat(c)
  {
    SplitThree(a, b, c);
    var fields := [a, b, c];
    assert fields[0] == a && fields[1] == b && fields[2] == c;
    assert ParseFields(fields) == Text.ParseNat(a) * 3600 + Text.ParseNat(b) * 60 + Text.ParseNat(c);
  }

  /** Two colon-free digit strings joined by a colon read back as minutes and seconds. */
  lemma ParseTwoFields(a: string, b: string)
    requires ':' !in a && ':' !in b
    requires AllDigits(a) && AllDigits(b)
    ensures ParseDuration(a + ":" + b) == Text.ParseNat(a) * 60 + Text.ParseNat(b)
  {
    SplitTwo(a, b);
    var fields := [a, b];
    assert fields[0] == a && fields[1] == b;
    assert ParseFields(fields) == Text.ParseNat(a) * 60 + Text.ParseNat(b);
  }

  /** `h:mm:ss` reads back as `h` hours, `mm` minutes and `ss` seconds. */
  lemma ParseLongForm(h: nat, m: nat, s: nat)
    requires m < 60 && s < 60
    ensures Text.Split(Text.NatToString(h) + ":" + TwoDigits(m) + ":" + TwoDigits(s), ':')
            == [Text.NatToString(h), TwoDigits(m), TwoDigits(s)]
    ensures ParseDuration(Text.NatToString(h) + ":" + TwoDigits(m) + ":" + TwoDigits(s)) == h * 3600 + m * 60 + s
  {
    var hs := Text.NatToString(h);
    TwoDigitsFacts(m);
    TwoDigitsFacts(s);
    NoColonInNumber(h);
    Text.ParseNatToString(h);
    SplitThree(hs, TwoDigits(m), TwoDigits(s));
    ParseThreeFields(hs, TwoDigits(m), TwoDigits(s));
  }

  /** `m:ss` reads back as `m` minutes and `ss` seconds. */
  lemma ParseShortForm(m: nat, s: nat)
    requires s < 60
    ensures Text.Split(Text.NatToString(m) + ":" + TwoDigits(s), ':') == [Text.NatToString(m), TwoDigits(s)]
    ensures ParseDuration(Text.NatToString(m) + ":" + TwoDigits(s)) == m * 60 + s
  {
    var ms := Text.NatToString(m);
    TwoDigitsFacts(s);
    NoColonInNumber(m);
    Text.ParseNatToString(m);
    SplitTwo(ms, TwoDigits(s));
    ParseTwoFields(ms, TwoDigits(s));
  }

  /** The fields of the formatted duration: two of them below an hour, three from an hour on. */
  lemma FormatDurationShape(seconds: nat)
    ensures var (h, m, s) := SplitDuration(seconds);
            var fields := Text.Split(FormatDuration(seconds), ':');
            && (h > 0 ==> fields == [Text.NatToString(h), TwoDigits(m), TwoDigits(s)])
            && (h == 0 ==> fields == [Text.NatToString(m), TwoDigits(s)])
  {
    var (h, m, s) := SplitDuration(seconds);
    if h > 0 {
      assert FormatDuration(seconds) == Text.NatToString(h) + ":" + TwoDigits(m) + ":" + TwoDigits(s);
      ParseLongForm(h, m, s);
    } else {
      assert FormatDuration(seconds) == Text.NatToString(m) + ":" + TwoDigits(s);
      ParseShortForm(m, s);
    }
  }

  // ---------- room codes ----------

  /** The 32 characters a room code may use: no I, O, 0 or 1. */
  const Alphabet := "ABCDEFGHJKLMNPQRSTUVWXYZ23456789"
  const CodeLength := 6

  /** One call's worth of `Math.floor(Math.random() * 32)` results. */
  type Draw = d: seq<nat> | |d| == CodeLength && forall i :: 0 <= i < |d| ==> d[i] < |Alphabet|
    witness [0, 0, 0, 0, 0, 0]

  predicate IsRoomCode(code: string) {
    |code| == CodeLength && forall i :: 0 <= i < |code| ==> code[i] in Alphabet
  }

  /** The code a draw spells out. */
  function CodeOf(d: Draw): string {
    seq(CodeLength, i requires 0 <= i < CodeLength => Alphabet[d[i]])
  }

  /** Builds a code one random character at a time. */
  method GenerateRoomCode(d: Draw) returns (code: string)
    ensures IsRoomCode(code)
    ensures code == CodeOf(d)
  {
    code := "";
    for i := 0 to CodeLength
      invariant |code| == i
      invariant forall k :: 0 <= k < i ==> code[k] == Alphabet[d[k]]
    {
      code := code + [Alphabet[d[i]]];
    }
  }

  /** The ambiguous characters I, O, 0 and 1 never appear in a room code. */
  lemma RoomCodeUnambiguous(code: string)
    requires IsRoomCode(code)
    ensures 'I' !in code && 'O' !in code && '0' !in code && '1' !in code
  {
    assert forall k :: 0 <= k < |Alphabet| ==> Alphabet[k] !in "IO01";
  }

  // ---------- colour tables ----------

  const Gray := "text-gray-400"

  /** Text colour for a difficulty, matched case-insensitively. */
  function DifficultyColor(difficulty: string): (cls: string)
    ensures cls != Gray <==> Text.ToLower(difficulty) in {"easy", "medium", "hard"}
  {
    match Text.ToLower(difficulty)
    case "easy" => "text-green-400"
    case "medium" => "text-yellow-400"
    case "hard" => "text-red-400"
    case _ => Gray
  }

  /** Background and border classes for a difficulty, matched case-insensitively. */
  function DifficultyBg(difficulty: string): (cls: string)
    ensures cls != "bg-gray-500/20 border-gray-500/30" <==> Text.ToLower(difficulty) in {"easy", "medium", "hard"}
  {
    match Text.ToLower(difficulty)
    case "easy" => "bg-green-500/20 border-green-500/30"
    case "medium" => "bg-yellow-500/20 border-yellow-500/30"
    case "hard" => "bg-red-500/20 border-red-500/30"
    case _ => "bg-gray-500/20 border-gray-500/30"
  }

  /** Text colour for a league tier, matched case-insensitively; SILVER shares the default gray. */
  function LeagueTierColor(tier: string): (cls: string)
    ensures cls == Gray <==> Text.ToUpper(tier) !in {"BRONZE", "GOLD", "PLATINUM", "DIAMOND", "BEAST"}
  {
    match Text.ToUpper(tier)
    case "BRONZE" => "text-amber-600"
    case "SILVER" => Gray
    case "GOLD" => "text-yellow-400"
    case "PLATINUM" => "text-cyan-400"
    case "DIAMOND" => "text-blue-400"
    case "BEAST" => "text-beast-primary"
    case _ => Gray
  }

  /** The three difficulties get three different colours, so the colour tells them apart. */
  lemma DifficultyColorDistinct(a: string, b: string)
    requires Text.ToLower(a) in {"easy", "medium", "hard"} && Text.ToLower(b) in {"easy", "medium", "hard"}
    ensures DifficultyColor(a) == DifficultyColor(b) <==> Text.ToLower(a) == Text.ToLower(b)
    ensures DifficultyBg(a) == DifficultyBg(b) <==> Text.ToLower(a) == Text.ToLower(b)
  {
  }

  /** Every tier but SILVER has a colour of its own. */
  lemma TierColorDistinct(a: string, b: string)
    requires Text.ToUpper(a) in {"BRONZE", "GOLD", "PLATINUM", "DIAMOND", "BEAST"}
    requires Text.ToUpper(b) in {"BRONZE", "GOLD", "PLATINUM", "DIAMOND", "BEAST"}
    ensures LeagueTierColor(a) == LeagueTierColor(b) <==> Text.ToUpper(a) == Text.ToUpper(b)
  {
  }

  /** The difficulty lookups ignore case: any spelling of a name gives the same class. */
  lemma DifficultyIgnoresCase(a: string)
    ensures DifficultyColor(Text.ToUpper(a)) == DifficultyColor(a)
    ensures DifficultyBg(Text.ToUpper(a)) == DifficultyBg(a)
  {
    Text.LowerOfUpper(a);
  }

  /** The tier lookup ignores case too. */
  lemma TierIgnoresCase(a: string)
    ensures LeagueTierColor(Text.ToLower(a)) == LeagueTierColor(a)
  {
    Text.UpperOfLower(a);
  }
}
