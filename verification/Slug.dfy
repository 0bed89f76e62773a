/** Slugs: normalising text, and the first free name in a numbered series. */
module Slug {
  import opened Sets

  predicate SlugChar(c: char) {
    'a' <= c <= 'z' || '0' <= c <= '9'
  }

  // ----- slugify -----

  /** Drop the leading run of other characters. */
  function SkipRun(s: string): (r: string)
    ensures |r| <= |s| && (r != "" ==> SlugChar(r[0]))
  {
    if s == "" || SlugChar(s[0]) then s else SkipRun(s[1..])
  }

  /** `_NON_SLUG.sub("-", s)`: every maximal run of other characters becomes one dash. */
  function Collapse(s: string): string
    decreases |s|
  {
    if s == "" then ""
    else if SlugChar(s[0]) then [s[0]] + Collapse(s[1..])
    else "-" + Collapse(SkipRun(s[1..]))
  }

  function LStrip(s: string): string {
    if s != "" && s[0] == '-' then LStrip(s[1..]) else s
  }

  function RStrip(s: string): string {
    if s != "" && s[|s| - 1] == '-' then RStrip(s[..|s| - 1]) else s
  }

  /** `lower` stands for Python's `str.lower`. */
  function Slugify(lower: string -> string, text: string, fallback: string): string {
    var slug := RStrip(LStrip(Collapse(lower(text))));
    if slug != "" then slug else fallback
  }

  // ----- what a slug is -----

  /** Only a-z, 0-9 and single inner dashes. */
  predicate IsSlug(s: string) {
    && s != ""
    && (forall i | 0 <= i < |s| :: 'a' <= s[i] <= 'z' || '0' <= s[i] <= '9' || s[i] == '-')
    && s[0] != '-' && s[|s| - 1] != '-'
    && (forall i | 0 <= i < |s| - 1 :: s[i] != '-' || s[i + 1] != '-')
  }

  function TakeRun(s: string): (w: string)
    ensures |w| <= |s| && w == s[..|w|]
    ensures s != "" && SlugChar(s[0]) ==> w != ""
    ensures forall i | 0 <= i < |w| :: SlugChar(w[i])
    ensures |w| < |s| ==> !SlugChar(s[|w|])
  {
    if s == "" || !SlugChar(s[0]) then "" else [s[0]] + TakeRun(s[1..])
  }

  /** The words of a text: its maximal runs of slug characters. */
  function Words(s: string): seq<string>
    decreases |s|
  {
    if s == "" then []
    else if !SlugChar(s[0]) then Words(s[1..])
    else [TakeRun(s)] + Words(s[|TakeRun(s)|..])
  }

  function Join(words: seq<string>): string {
    if words == [] then ""
    else if |words| == 1 then words[0]
    else words[0] + "-" + Join(words[1..])
  }

  lemma {:induction false} WordsSkip(s: string)
    ensures Words(SkipRun(s)) == Words(s)
  {
    if s != "" && !SlugChar(s[0]) { WordsSkip(s[1..]); }
  }

  lemma {:induction false} CollapseRun(s: string)
    ensures Collapse(s) == TakeRun(s) + Collapse(s[|TakeRun(s)|..])
    decreases |s|
  {
    if s != "" && SlugChar(s[0]) {
      var tail := s[1..];
      var w := TakeRun(tail);
      assert TakeRun(s) == [s[0]] + w && Collapse(s) == [s[0]] + Collapse(tail);
      hide TakeRun, Collapse, SlugChar;
      CollapseRun(tail);
      DropOneMore(s, |w|);
      Reassociate([s[0]], w, Collapse(tail[|w|..]));
    } else {
      assert s[0..] == s;
    }
  }

  lemma DropOneMore(s: string, n: nat)
    requires n < |s|
    ensures s[1..][n..] == s[n + 1..]
  {
  }

  lemma Reassociate(a: string, b: string, c: string)
    ensures a + (b + c) == a + b + c
  {
  }

  lemma {:induction false} RStripTail(a: string, b: string)
    requires RStrip(b) != ""
    ensures RStrip(a + b) == a + RStrip(b)
    decreases |b|
  {
    if b[|b| - 1] == '-' {
      assert (a + b)[..|a + b| - 1] == a + b[..|b| - 1];
      RStripTail(a, b[..|b| - 1]);
    }
  }

  lemma {:induction false} WordsNonEmpty(s: string)
    ensures s != "" && SlugChar(s[0]) ==> Words(s) != [] && Join(Words(s)) != ""
    ensures forall i | 0 <= i < |Words(s)| :: Words(s)[i] != "" && forall c | c in Words(s)[i] :: SlugChar(c)
    decreases |s|
  {
    if s != "" {
      if SlugChar(s[0]) { WordsNonEmpty(s[|TakeRun(s)|..]); } else { WordsNonEmpty(s[1..]); }
    }
  }

  /** A word, a run of other characters, and what follows. */
  lemma CollapseWord(s: string, w: string, next: string)
    requires s != "" && SlugChar(s[0]) && w == TakeRun(s) && |w| < |s| && next == SkipRun(s[|w|..][1..])
    ensures Collapse(s) == w + "-" + Collapse(next) && Words(s) == [w] + Words(next)
  {
    var rest := s[|w|..];
    CollapseRun(s);
    WordsSkip(rest[1..]);
    assert Words(s) == [w] + Words(rest) && !SlugChar(rest[0]);
    assert Words(rest) == Words(rest[1..]);
    assert Collapse(rest) == "-" + Collapse(next);
    hide TakeRun, Collapse, SlugChar, Words, SkipRun;
    Reassociate(w, "-", Collapse(next));
  }

  lemma JoinMore(w: string, words: seq<string>)
    requires words != []
    ensures Join([w] + words) == w + "-" + Join(words)
  {
    assert ([w] + words)[1..] == words;
  }

  lemma {:induction false} CollapseJoins(s: string)
    requires s == "" || SlugChar(s[0])
    ensures RStrip(Collapse(s)) == Join(Words(s))
    decreases |s|
  {
    if s != "" {
      var w := TakeRun(s);
      assert RStrip(w) == w;
      if |w| == |s| {
        CollapseRun(s);
        assert w == s;
      } else {
        var next := SkipRun(s[|w|..][1..]);
        CollapseWord(s, w, next);
        CollapseJoins(next);
        WordsNonEmpty(next);
        hide Words, Collapse, TakeRun, SkipRun, SlugChar;
        if next == "" {
          NothingLeft();
          assert w + "-" + "" == w + "-" && (w + "-")[..|w|] == w;
          assert [w] + [] == [w];
        } else {
          RStripTail(w + "-", Collapse(next));
          JoinMore(w, Words(next));
        }
      }
    }
  }

  lemma NothingLeft()
    ensures Collapse("") == "" && Words("") == []
  {
  }

  /** A slug is the words of the lowered text joined by dashes, or the fallback when it has none. */
  lemma SlugifyJoinsWords(lower: string -> string, text: string, fallback: string)
    ensures Slugify(lower, text, fallback)
         == if Words(lower(text)) != [] then Join(Words(lower(text))) else fallback
  {
    var s := lower(text);
    var core := SkipRun(s);
    WordsSkip(s);
    CollapseJoins(core);
    CollapseStart(core);
    WordsNonEmpty(core);
    if s != "" && !SlugChar(s[0]) {
      assert Collapse(s) == "-" + Collapse(core);
      assert LStrip(Collapse(s)) == LStrip(Collapse(core));
    }
  }

  lemma CollapseStart(s: string)
    requires s == "" || SlugChar(s[0])
    ensures LStrip(Collapse(s)) == Collapse(s)
  {
  }

  lemma {:induction false} JoinIsSlug(words: seq<string>)
    requires words != []
    requires forall i | 0 <= i < |words| :: words[i] != "" && forall c | c in words[i] :: SlugChar(c)
    ensures IsSlug(Join(words))
  {
    if |words| == 1 {
      assert forall i | 0 <= i < |words[0]| :: words[0][i] in words[0];
    } else {
      assert forall i | 0 <= i < |words[0]| :: words[0][i] in words[0];
      JoinIsSlug(words[1..]);
    }
  }

  lemma {:induction false} SlugUnchanged(s: string)
    requires forall i | 0 <= i < |s| :: SlugChar(s[i]) || s[i] == '-'
    requires forall i | 0 <= i < |s| - 1 :: s[i] != '-' || s[i + 1] != '-'
    ensures Collapse(s) == s
    decreases |s|
  {
    if s != "" {
      if !SlugChar(s[0]) && |s| > 1 { assert SlugChar(s[1]); }
      SlugUnchanged(s[1..]);
    }
  }

  /** Python lowers neither a-z, 0-9 nor the dash. */
  ghost predicate KeepsSlugs(lower: string -> string) {
    forall s: string | IsSlug(s) :: lower(s) == s
  }

  /** Exactly the slugs are left as they are, whatever the fallback. */
  lemma SlugifyFixesIff(lower: string -> string, s: string)
    requires KeepsSlugs(lower)
    ensures IsSlug(s) <==> forall fallback :: Slugify(lower, s, fallback) == s
  {
    if IsSlug(s) {
      SlugUnchanged(s);
    } else if Words(lower(s)) == [] {
      var other := s + "-";
      SlugifyJoinsWords(lower, s, other);
      assert |other| != |s|;
      assert Slugify(lower, s, other) != s;
    } else {
      SlugifyJoinsWords(lower, s, "");
      WordsNonEmpty(lower(s));
      JoinIsSlug(Words(lower(s)));
      assert Slugify(lower, s, "") != s;
    }
  }

  /** The output is a slug, or the fallback for a text without a single slug character. */
  lemma OutputIsSlug(lower: string -> string, text: string, fallback: string)
    ensures IsSlug(Slugify(lower, text, fallback))
        || (Words(lower(text)) == [] && Slugify(lower, text, fallback) == fallback)
    ensures IsSlug(fallback) ==> IsSlug(Slugify(lower, text, fallback))
  {
    SlugifyJoinsWords(lower, text, fallback);
    if Words(lower(text)) != [] {
      WordsNonEmpty(lower(text));
      JoinIsSlug(Words(lower(text)));
    }
  }

  /** Slugifying twice is slugifying once, for all texts, exactly when the fallback slugifies to
      itself; the default fallback does. */
  lemma IdempotentIff(lower: string -> string, fallback: string)
    requires KeepsSlugs(lower) && lower("") == ""
    ensures (forall text :: Slugify(lower, Slugify(lower, text, fallback), fallback) == Slugify(lower, text, fallback))
       <==> Slugify(lower, fallback, fallback) == fallback
    ensures Slugify(lower, "item", "item") == "item"
  {
    SlugifyJoinsWords(lower, "", fallback);
    if Slugify(lower, fallback, fallback) == fallback {
      forall text ensures Slugify(lower, Slugify(lower, text, fallback), fallback) == Slugify(lower, text, fallback) {
        OutputIsSlug(lower, text, fallback);
        SlugifyFixesIff(lower, Slugify(lower, text, fallback));
      }
    }
    assert IsSlug("item");
    SlugifyFixesIff(lower, "item");
  }

  // ----- unique_slug -----

  function Digit(d: nat): char
    requires d < 10
  {
    (('0' as int) + d) as char
  }

  function Decimal(n: nat): (s: string)
    ensures s != ""
  {
    if n < 10 then [Digit(n)] else Decimal(n / 10) + [Digit(n % 10)]
  }

  /** The number a text of digits reads as. */
  function ValueOf(s: string): nat
    requires forall i | 0 <= i < |s| :: '0' <= s[i] <= '9'
  {
    if s == "" then 0 else 10 * ValueOf(s[..|s| - 1]) + (s[|s| - 1] as int - '0' as int)
  }

  /** A counter is written in decimal, without leading zeros. */
  lemma {:induction false} DecimalReadsBack(n: nat)
    ensures forall i | 0 <= i < |Decimal(n)| :: '0' <= Decimal(n)[i] <= '9'
    ensures ValueOf(Decimal(n)) == n
    ensures n > 0 ==> Decimal(n)[0] != '0'
  {
    if n >= 10 {
      DecimalReadsBack(n / 10);
      var s := Decimal(n);
      assert s[..|s| - 1] == Decimal(n / 10) && s[|s| - 1] == Digit(n % 10);
      assert s[0] == Decimal(n / 10)[0];
    } else {
      assert [Digit(n)][..0] == "";
    }
  }

  lemma {:induction false} DecimalInjective(m: nat, n: nat)
    requires Decimal(m) == Decimal(n)
    ensures m == n
    decreases m
  {
    var s, t := Decimal(m), Decimal(n);
    assert s[|s| - 1] == Digit(m % 10) && t[|t| - 1] == Digit(n % 10);
    if m >= 10 && n >= 10 {
      assert s[..|s| - 1] == Decimal(m / 10) && t[..|t| - 1] == Decimal(n / 10);
      DecimalInjective(m / 10, n / 10);
    }
  }

  /** `base`, `base-2`, `base-3`, … */
  function Candidate(base: string, k: nat): string {
    if k == 0 then base else base + "-" + Decimal(k + 1)
  }

  lemma CandidateInjective(base: string, j: nat, k: nat)
    requires Candidate(base, j) == Candidate(base, k)
    ensures j == k
  {
    if j > 0 && k > 0 {
      var n := |base + "-"|;
      assert Candidate(base, j)[n..] == Decimal(j + 1) && Candidate(base, k)[n..] == Decimal(k + 1);
      DecimalInjective(j + 1, k + 1);
    }
  }

  ghost predicate FirstFree(base: string, taken: set<string>, k: nat, slug: string) {
    && slug == Candidate(base, k)
    && slug !in taken
    && (forall j: nat | j < k :: Candidate(base, j) in taken)
  }

  /** Ends after at most one more probe than there are taken slugs, with the first free name. */
  method UniqueSlug(base: string, taken: set<string>) returns (candidate: string)
    ensures exists k: nat | k <= |taken| :: FirstFree(base, taken, k, candidate)
  {
    candidate := base;
    var counter := 2;
    ghost var probed: set<string> := {};
    while candidate in taken
      invariant counter >= 2 && candidate == Candidate(base, counter - 2)
      invariant probed <= taken && |probed| == counter - 2
      invariant forall s | s in probed :: exists j: nat | j < counter - 2 :: s == Candidate(base, j)
      invariant forall j: nat | j < counter - 2 :: Candidate(base, j) in probed
      invariant counter - 2 <= |taken|
      decreases |taken| - (counter - 2)
    {
      NotProbed(base, counter - 2, probed);
      probed := probed + {candidate};
      SubsetSize(probed, taken);
      candidate := base + "-" + Decimal(counter);
      counter := counter + 1;
    }
    assert FirstFree(base, taken, counter - 2, candidate);
  }

  lemma NotProbed(base: string, k: nat, probed: set<string>)
    requires forall s | s in probed :: exists j: nat | j < k :: s == Candidate(base, j)
    ensures Candidate(base, k) !in probed
  {
    if Candidate(base, k) in probed {
      var j: nat :| j < k && Candidate(base, k) == Candidate(base, j);
      CandidateInjective(base, j, k);
    }
  }

  lemma {:induction false} DecimalDigits(n: nat)
    ensures forall i | 0 <= i < |Decimal(n)| :: SlugChar(Decimal(n)[i])
  {
    if n >= 10 { DecimalDigits(n / 10); }
  }

  /** A unique slug made from a slug is a slug, and slugifying it again keeps it unique. */
  lemma CandidateIsSlug(lower: string -> string, base: string, k: nat, fallback: string)
    requires KeepsSlugs(lower) && IsSlug(base)
    ensures IsSlug(Candidate(base, k)) && Slugify(lower, Candidate(base, k), fallback) == Candidate(base, k)
  {
    if k > 0 { DecimalDigits(k + 1); }
    SlugifyFixesIff(lower, Candidate(base, k));
  }
}
