/**
 * The pure rules of the sheet-seeding script (packages/database/prisma/seed.ts):
 * the difficulty classifier, the slug filter and the URL cleaning applied to
 * each scraped problem before it is written to the database.
 */
module Seed {
  import opened Wrappers
  import Text

  datatype Difficulty = EASY | MEDIUM | HARD

  /** `word` occurs somewhere in `s`, ignoring the case of ASCII letters. */
  ghost predicate Mentions(s: string, word: string) {
    exists i :: Text.OccursAt(Text.ToLower(s), word, i)
  }

  ghost predicate HardHint(title: string, topic: string) {
    || Mentions(title, "hard") || Mentions(topic, "hard")
    || Mentions(title, "trapping rain") || Mentions(title, "n-queens")
    || Mentions(title, "sudoku") || Mentions(title, "median of two")
  }

  ghost predicate EasyHint(title: string, topic: string) {
    || Mentions(topic, "easy") || Mentions(topic, "learn the basics")
    || Mentions(title, "reverse") || Mentions(title, "palindrome number")
    || Mentions(title, "two sum")
  }

  /**
   * Classifies a problem by keywords in its lower-cased title and topic: HARD
   * exactly when a hard keyword occurs, EASY exactly when no hard keyword but an
   * easy one occurs (the hard keywords take priority), and MEDIUM otherwise.
   */
  function InferDifficulty(title: string, topic: string): (d: Difficulty)
    ensures d == HARD <==> HardHint(title, topic)
    ensures d == EASY <==> !HardHint(title, topic) && EasyHint(title, topic)
  {
    var lowerTitle := Text.ToLower(title);
    var lowerTopic := Text.ToLower(topic);
    if Text.Contains(lowerTitle, "hard")
      || Text.Contains(lowerTopic, "hard")
      || Text.Contains(lowerTitle, "trapping rain")
      || Text.Contains(lowerTitle, "n-queens")
      || Text.Contains(lowerTitle, "sudoku")
      || Text.Contains(lowerTitle, "median of two")
    then HARD
    else if Text.Contains(lowerTopic, "easy")
      || Text.Contains(lowerTopic, "learn the basics")
      || Text.Contains(lowerTitle, "reverse")
      || Text.Contains(lowerTitle, "palindrome number")
      || Text.Contains(lowerTitle, "two sum")
    then EASY
    else MEDIUM
  }

  /** MEDIUM for everything else; the declared `null` result never occurs. */
  lemma InferDifficultyMedium(title: string, topic: string)
    ensures InferDifficulty(title, topic) == MEDIUM <==> !HardHint(title, topic) && !EasyHint(title, topic)
  {
  }

  /** The classification does not depend on letter case. */
  lemma InferDifficultyIgnoresCase(title: string, topic: string)
    ensures InferDifficulty(Text.ToUpper(title), Text.ToUpper(topic)) == InferDifficulty(title, topic)
    ensures InferDifficulty(Text.ToLower(title), Text.ToLower(topic)) == InferDifficulty(title, topic)
  {
    Text.LowerOfUpper(title);
    Text.LowerOfUpper(topic);
    Text.LowerIdempotent(title);
    Text.LowerIdempotent(topic);
  }

  /** A title with both an easy and a hard keyword is HARD. */
  lemma HardBeatsEasy(title: string, topic: string)
    requires Mentions(title, "reverse") && Mentions(title, "sudoku")
    ensures InferDifficulty(title, topic) == HARD
  {
  }

  // ---------- one scraped problem ----------

  datatype ScrapedProblem = ScrapedProblem(
    title: string, slug: Option<string>, url: string,
    platform: string, topic: string, step: Option<string>)

  /** The row written for a problem of the sheet. */
  datatype SheetProblem = SheetProblem(
    problemSlug: string, problemTitle: string, problemUrl: string,
    platform: string, topic: string, step: Option<string>,
    difficulty: Difficulty, order: nat)

  /** A missing slug or one shorter than two characters is not a real problem link. */
  predicate SkipsSlug(slug: Option<string>) {
    slug.None? || |slug.value| < 2
  }

  /** `url.split('#')[0].split('?')[0]`: the URL without fragment or query. */
  function CleanUrl(url: string): (clean: string)
    ensures '#' !in clean && '?' !in clean
    ensures clean <= url
    ensures '#' !in url && '?' !in url ==> clean == url
    ensures clean == url || url[|clean|] == '#' || url[|clean|] == '?'
  {
    var noFragment := Text.Split(url, '#')[0];
    var r := Text.Split(noFragment, '?')[0];
    CutTwice(url, noFragment, r);
    r
  }

  /** Two cuts, at the first `#` and then at the first `?`, end before one of them. */
  lemma CutTwice(url: string, noFragment: string, clean: string)
    requires noFragment <= url && (noFragment == url || url[|noFragment|] == '#')
    requires clean <= noFragment && (clean == noFragment || noFragment[|clean|] == '?')
    ensures clean == url || url[|clean|] == '#' || url[|clean|] == '?'
  {
    if clean != noFragment {
      assert url[|clean|] == noFragment[|clean|];
    }
  }

  /** Cleaning an already clean URL changes nothing. */
  lemma CleanUrlIdempotent(url: string)
    ensures CleanUrl(CleanUrl(url)) == CleanUrl(url)
  {
  }

  /**
   * The row the seeding loop upserts for the problem at position `order`, or
   * None when the problem is skipped for its slug.
   */
  function SheetEntry(p: ScrapedProblem, order: nat): (row: Option<SheetProblem>)
    ensures row.None? <==> SkipsSlug(p.slug)
    ensures row.Some? ==> && |row.value.problemSlug| >= 2
                          && row.value.problemSlug == p.slug.value
                          && row.value.problemTitle == p.title
                          && row.value.problemUrl == CleanUrl(p.url)
                          && row.value.platform == p.platform
                          && row.value.topic == p.topic
                          && row.value.difficulty == InferDifficulty(p.title, p.topic)
                          && row.value.order == order
                          && row.value.step == (if p.step == Some("") then None else p.step)
  {
    if SkipsSlug(p.slug) then None
    else
      Some(SheetProblem(
        p.slug.value, p.title, CleanUrl(p.url), p.platform, p.topic,
        if p.step == Some("") then None else p.step,
        InferDifficulty(p.title, p.topic), order))
  }
}
