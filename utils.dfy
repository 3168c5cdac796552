/** The string helpers of the front end: text truncation, slugs, e-mail check, relative time, badges. */
module Utils {
  import opened Text
  import opened News

  // ---------------------------------------------------------------- truncate

  /** `truncate(text, length)`: the text when it fits, else its first `length` characters and an ellipsis. */
  function Truncate(text: string, length: int): (r: string)
    ensures |text| <= length ==> r == text
    ensures |text| > length ==>
      && |r| == (if length < 0 then 0 else length) + 3
      && r[..|r| - 3] == text[..|r| - 3]
      && r[|r| - 3..] == "..."
  {
    if |text| <= length then text else Take(text, length) + "..."
  }

  /** Truncating a truncated text again changes nothing: the ellipsis is re-added after the same prefix. */
  lemma TruncateIdempotent(text: string, length: int)
    ensures Truncate(Truncate(text, length), length) == Truncate(text, length)
  {
    var r := Truncate(text, length);
    if |text| > length {
      var k := |r| - 3;
      assert Take(r, length) == r[..k];
      assert r[..k] + "..." == r;
    }
  }

  // ---------------------------------------------------------------- generateSlug

  /** `\w` of JavaScript regular expressions. */
  predicate IsWordChar(c: char) {
    IsAsciiAlnum(c) || c == '_'
  }

  predicate IsHyphen(c: char) {
    c == '-'
  }

  /** What `/[^\w\s-]/g` does not remove. */
  predicate IsSlugSource(c: char) {
    IsWordChar(c) || IsJsWhitespace(c) || c == '-'
  }

  /** The characters a slug is made of. */
  predicate IsSlugChar(c: char) {
    'a' <= c <= 'z' || IsAsciiDigit(c) || c == '_' || c == '-'
  }

  /** `.replace(/[^\w\s-]/g, '')`: keeps word characters, whitespace and hyphens, all of them, in order. */
  function StripSpecial(s: string): (r: string)
    ensures IsSubsequence(r, s) && |r| == CountWhere(s, IsSlugSource)
    ensures forall i :: 0 <= i < |r| ==> IsSlugSource(r[i])
    ensures forall i :: 0 <= i < |r| ==> r[i] in s
    ensures (forall i :: 0 <= i < |s| ==> IsSlugSource(s[i])) ==> r == s
  {
    Filter(s, IsSlugSource)
  }

  /** The characters a squash leaves alone: neither in a run nor the replacement itself. */
  function Untouched(p: char -> bool, d: char): char -> bool {
    c => !p(c) && c != d
  }

  /** `.replace(/P+/g, d)`: every maximal run of characters satisfying `p` becomes the single character `d`. */
  function SquashRuns(s: string, p: char -> bool, d: char): (r: string)
    ensures |r| <= |s|
    ensures |r| == 0 <==> |s| == 0
  {
    if s == [] then []
    else
      var n := |s| - 1;
      var front := SquashRuns(s[..n], p, d);
      if !p(s[n]) then front + [s[n]]
      else if n > 0 && p(s[n - 1]) then front
      else front + [d]
  }

  /** The squashed text ends like the text (or with `d` after a run), and holds `d` and the text's
      other characters only. */
  lemma {:induction false} SquashRunsShape(s: string, p: char -> bool, d: char)
    ensures var r := SquashRuns(s, p, d);
      && (|s| > 0 ==> r[|r| - 1] == if p(s[|s| - 1]) then d else s[|s| - 1])
      && forall i :: 0 <= i < |r| ==> r[i] == d || (!p(r[i]) && r[i] in s)
    decreases |s|
  {
    if s != [] {
      SquashRunsShape(s[..|s| - 1], p, d);
    }
  }

  /** Filtering a text with one more character. */
  lemma FilterSnoc(s: string, e: char, q: char -> bool)
    ensures Filter(s + [e], q) == Filter(s, q) + (if q(e) then [e] else [])
  {
    FilterAppend(s, [e], q);
    FilterSingle(e, q);
  }

  /** Every character other than the run characters and the replacement survives, in order. */
  lemma {:induction false} SquashRunsKeepsOthers(s: string, p: char -> bool, d: char)
    ensures Filter(SquashRuns(s, p, d), Untouched(p, d)) == Filter(s, Untouched(p, d))
    decreases |s|
  {
    if s != [] {
      var n := |s| - 1;
      var t, e := s[..n], s[n];
      var q := Untouched(p, d);
      var front := SquashRuns(t, p, d);
      SquashRunsKeepsOthers(t, p, d);
      assert s == t + [e];
      SquashRunsSnoc(t, e, p, d);
      FilterSnoc(t, e, q);
      if !p(e) {
        FilterSnoc(front, e, q);
      } else if !(t != [] && p(t[|t| - 1])) {
        FilterSnoc(front, d, q);
      }
    }
  }

  /** Squashing one more character: it is kept, it continues a run, or it starts a run. */
  lemma SquashRunsSnoc(t: string, e: char, p: char -> bool, d: char)
    ensures SquashRuns(t + [e], p, d) ==
      if !p(e) then SquashRuns(t, p, d) + [e]
      else if t != [] && p(t[|t| - 1]) then SquashRuns(t, p, d)
      else SquashRuns(t, p, d) + [d]
  {
    assert (t + [e])[..|t|] == t;
  }

  lemma {:induction false} SquashRunsSplit(a: string, c: char, b: string, p: char -> bool, d: char)
    requires !p(c)
    ensures SquashRuns(a + [c] + b, p, d) == SquashRuns(a, p, d) + [c] + SquashRuns(b, p, d)
    decreases |b|
  {
    if b == [] {
      assert a + [c] + b == a + [c];
      SquashRunsSnoc(a, c, p, d);
    } else {
      var n := |b| - 1;
      var front := b[..n];
      var e := b[n];
      SquashRunsSplit(a, c, front, p, d);
      var t := a + [c] + front;
      assert a + [c] + b == t + [e] && b == front + [e];
      assert t[|t| - 1] == if n > 0 then front[n - 1] else c;
      SquashRunsSnoc(t, e, p, d);
      SquashRunsSnoc(front, e, p, d);
      var x, y := SquashRuns(a, p, d), SquashRuns(front, p, d);
      if !p(e) {
        assert x + [c] + y + [e] == x + [c] + (y + [e]);
      } else if !(t != [] && p(t[|t| - 1])) {
        assert x + [c] + y + [d] == x + [c] + (y + [d]);
      }
    }
  }

  /** No two neighbours both satisfy `p`. */
  predicate NoAdjacent(s: string, p: char -> bool) {
    forall i :: 0 < i < |s| ==> !(p(s[i - 1]) && p(s[i]))
  }

  /** When the replacement itself satisfies `p`, squashing leaves no two neighbours satisfying `p`. */
  lemma {:induction false} SquashRunsNoAdjacent(s: string, p: char -> bool, d: char)
    requires p(d)
    ensures NoAdjacent(SquashRuns(s, p, d), p)
    decreases |s|
  {
    if s != [] {
      var n := |s| - 1;
      SquashRunsNoAdjacent(s[..n], p, d);
    }
  }

  /** A text whose `p`-characters are already single `d`s is left unchanged. */
  lemma {:induction false} SquashRunsIdentity(s: string, p: char -> bool, d: char)
    requires forall i :: 0 <= i < |s| && p(s[i]) ==> s[i] == d
    requires NoAdjacent(s, p)
    ensures SquashRuns(s, p, d) == s
    decreases |s|
  {
    if s != [] {
      var n := |s| - 1;
      SquashRunsIdentity(s[..n], p, d);
      assert s == s[..n] + [s[n]];
    }
  }

  /** Slug characters are not whitespace. */
  lemma SlugCharNotWhitespace(c: char)
    requires IsSlugChar(c)
    ensures !IsJsWhitespace(c) && IsSlugSource(c)
  {
  }

  /** After lower-casing and stripping, every character is a slug character or whitespace. */
  lemma StrippedLowerChars(title: string)
    ensures var kept := StripSpecial(ToLower(title));
      forall i :: 0 <= i < |kept| ==> IsSlugChar(kept[i]) || IsJsWhitespace(kept[i])
  {
    var lower := ToLower(title);
    var kept := StripSpecial(lower);
    forall i | 0 <= i < |kept|
      ensures IsSlugChar(kept[i]) || IsJsWhitespace(kept[i])
    {
      var m :| 0 <= m < |lower| && lower[m] == kept[i];
      assert lower[m] == LowerChar(title[m]);
    }
  }

  const MaxSlugLength := 100

  /** The slug before the length cut: lower-cased, special characters dropped, whitespace runs to `-`,
      hyphen runs to one `-`. */
  function SlugBody(title: string): (r: string)
    ensures forall i :: 0 <= i < |r| ==> IsSlugChar(r[i])
    ensures NoAdjacent(r, IsHyphen)
  {
    var kept := StripSpecial(ToLower(title));
    var dashed := SquashRuns(kept, IsJsWhitespace, '-');
    StrippedLowerChars(title);
    SquashRunsShape(kept, IsJsWhitespace, '-');
    SquashRunsShape(dashed, IsHyphen, '-');
    assert forall i :: 0 <= i < |dashed| ==> IsSlugChar(dashed[i]);
    SquashRunsNoAdjacent(dashed, IsHyphen, '-');
    SquashRuns(dashed, IsHyphen, '-')
  }

  /** `generateSlug`: the slug body cut to its first 100 characters. */
  function GenerateSlug(title: string): (r: string)
    ensures |r| == if |SlugBody(title)| <= MaxSlugLength then |SlugBody(title)| else MaxSlugLength
    ensures r == SlugBody(title)[..|r|]
    ensures forall i :: 0 <= i < |r| ==> IsSlugChar(r[i])
    ensures NoAdjacent(r, IsHyphen)
  {
    Take(SlugBody(title), MaxSlugLength)
  }

  /** A slug is its own slug. */
  lemma SlugIdempotent(title: string)
    ensures GenerateSlug(GenerateSlug(title)) == GenerateSlug(title)
  {
    var s := GenerateSlug(title);
    forall i | 0 <= i < |s|
      ensures !IsJsWhitespace(s[i]) && IsSlugSource(s[i]) && LowerChar(s[i]) == s[i]
    {
      SlugCharNotWhitespace(s[i]);
    }
    assert ToLower(s) == s;
    assert StripSpecial(s) == s;
    SquashRunsIdentity(s, IsJsWhitespace, '-');
    SquashRunsIdentity(s, IsHyphen, '-');
    assert SlugBody(s) == s;
  }

  /** Narrowing a filter to a stricter predicate is filtering once with the stricter one. */
  lemma {:induction false} FilterNarrow(s: string, p: char -> bool, q: char -> bool)
    requires forall c :: q(c) ==> p(c)
    ensures Filter(Filter(s, p), q) == Filter(s, q)
    decreases |s|
  {
    if s != [] {
      FilterNarrow(s[1..], p, q);
      FilterAppend([s[0]], s[1..], p);
      FilterAppend([s[0]], s[1..], q);
      assert s == [s[0]] + s[1..];
      FilterSingle(s[0], p);
      FilterSingle(s[0], q);
      FilterAppend(Filter([s[0]], p), Filter(s[1..], p), q);
      if p(s[0]) {
        FilterSingle(s[0], q);
      }
    }
  }

  /** Squashing never touches an ASCII letter or digit when neither the runs nor the replacement are one. */
  lemma SquashRunsKeepsAlnum(s: string, p: char -> bool, d: char)
    requires forall c :: IsAsciiAlnum(c) ==> !p(c) && c != d
    ensures Filter(SquashRuns(s, p, d), IsAsciiAlnum) == Filter(s, IsAsciiAlnum)
  {
    var u := Untouched(p, d);
    SquashRunsKeepsOthers(s, p, d);
    FilterNarrow(SquashRuns(s, p, d), u, IsAsciiAlnum);
    FilterNarrow(s, u, IsAsciiAlnum);
  }

  /** Every ASCII letter and digit of the lower-cased title is in the slug body, in order, and nothing else
      of them is. */
  lemma SlugKeepsAlnum(title: string)
    ensures Filter(SlugBody(title), IsAsciiAlnum) == Filter(ToLower(title), IsAsciiAlnum)
  {
    var lower := ToLower(title);
    var kept := StripSpecial(lower);
    var dashed := SquashRuns(kept, IsJsWhitespace, '-');
    FilterNarrow(lower, IsSlugSource, IsAsciiAlnum);
    SquashRunsKeepsAlnum(kept, IsJsWhitespace, '-');
    SquashRunsKeepsAlnum(dashed, IsHyphen, '-');
  }

  /** The slug's letters and digits are the first ones of the lower-cased title, all of them when the
      slug body fits in 100 characters. */
  lemma SlugAlnumPrefix(title: string)
    ensures var inSlug := Filter(GenerateSlug(title), IsAsciiAlnum);
      var inTitle := Filter(ToLower(title), IsAsciiAlnum);
      && |inSlug| <= |inTitle| && inSlug == inTitle[..|inSlug|]
      && (|SlugBody(title)| <= MaxSlugLength ==> inSlug == inTitle)
  {
    var body := SlugBody(title);
    var r := GenerateSlug(title);
    SlugKeepsAlnum(title);
    assert body == r + body[|r|..];
    FilterAppend(r, body[|r|..], IsAsciiAlnum);
  }

  /** Lower-case ASCII letters and digits: text the slug keeps as it is. */
  predicate IsLowerAlnum(s: string) {
    forall i :: 0 <= i < |s| ==> 'a' <= s[i] <= 'z' || IsAsciiDigit(s[i])
  }

  lemma LowerAlnumPlain(a: string)
    requires IsLowerAlnum(a)
    ensures forall i :: 0 <= i < |a| ==>
      !IsJsWhitespace(a[i]) && !IsHyphen(a[i]) && LowerChar(a[i]) == a[i] && IsSlugSource(a[i])
  {
  }

  /** Lower-casing and stripping leave two such words and their space as they are. */
  lemma TwoWordsKept(a: string, b: string)
    requires IsLowerAlnum(a) && IsLowerAlnum(b)
    ensures StripSpecial(ToLower(a + " " + b)) == a + " " + b
  {
    var title := a + " " + b;
    LowerAlnumPlain(a);
    LowerAlnumPlain(b);
    forall i | 0 <= i < |title|
      ensures LowerChar(title[i]) == title[i] && IsSlugSource(title[i])
    {
      if i < |a| { assert title[i] == a[i]; }
      else if i > |a| { assert title[i] == b[i - |a| - 1]; }
    }
    assert ToLower(title) == title;
  }

  /** A lower-case alphanumeric word has no whitespace to squash. */
  lemma LowerAlnumUnsquashed(w: string)
    requires IsLowerAlnum(w)
    ensures SquashRuns(w, IsJsWhitespace, '-') == w
  {
    LowerAlnumPlain(w);
    SquashRunsIdentity(w, IsJsWhitespace, '-');
  }

  /** A single space between two texts that have nothing to squash becomes a hyphen. */
  lemma SpaceBecomesDash(a: string, c: char, rest: string)
    requires a != [] && !IsJsWhitespace(a[|a| - 1]) && !IsJsWhitespace(c)
    requires SquashRuns(a, IsJsWhitespace, '-') == a && SquashRuns(rest, IsJsWhitespace, '-') == rest
    ensures SquashRuns(a + [' '] + [c] + rest, IsJsWhitespace, '-') == a + ['-'] + [c] + rest
  {
    SquashRunsSnoc(a, ' ', IsJsWhitespace, '-');
    SquashRunsSplit(a + [' '], c, rest, IsJsWhitespace, '-');
  }

  /** Joining at a separator, with the second text's first character split off. */
  lemma JoinSplit(a: string, sep: char, b: string)
    requires b != []
    ensures a + [sep] + b == a + [sep] + [b[0]] + b[1..]
  {
    assert b == [b[0]] + b[1..];
  }

  /** A word's tail, and its first and last characters, are plain. */
  lemma LowerAlnumEnds(w: string)
    requires w != [] && IsLowerAlnum(w)
    ensures IsLowerAlnum(w[1..])
    ensures !IsJsWhitespace(w[0]) && !IsJsWhitespace(w[|w| - 1])
  {
    forall i | 0 <= i < |w| - 1 ensures 'a' <= w[1..][i] <= 'z' || IsAsciiDigit(w[1..][i]) {
      assert w[1..][i] == w[i + 1];
    }
  }

  /** The space between two words becomes a hyphen. */
  lemma TwoWordsDashed(a: string, b: string)
    requires a != [] && b != [] && IsLowerAlnum(a) && IsLowerAlnum(b)
    ensures SquashRuns(a + " " + b, IsJsWhitespace, '-') == a + "-" + b
  {
    LowerAlnumEnds(a);
    LowerAlnumEnds(b);
    LowerAlnumUnsquashed(a);
    LowerAlnumUnsquashed(b[1..]);
    SpaceBecomesDash(a, b[0], b[1..]);
    JoinSplit(a, ' ', b);
    JoinSplit(a, '-', b);
  }

  /** Two words joined by one hyphen have no hyphen run to squash. */
  lemma TwoWordsSquashed(a: string, b: string)
    requires IsLowerAlnum(a) && IsLowerAlnum(b)
    ensures SquashRuns(a + "-" + b, IsHyphen, '-') == a + "-" + b
  {
    var joined := a + "-" + b;
    LowerAlnumPlain(a);
    LowerAlnumPlain(b);
    forall i | 0 <= i < |joined|
      ensures IsHyphen(joined[i]) ==> i == |a|
    {
      if i < |a| { assert joined[i] == a[i]; }
      else if i > |a| { assert joined[i] == b[i - |a| - 1]; }
    }
    SquashRunsIdentity(joined, IsHyphen, '-');
  }

  /** Two words separated by a space become the words joined by one hyphen. */
  lemma SlugOfTwoWords(a: string, b: string)
    requires a != [] && b != [] && IsLowerAlnum(a) && IsLowerAlnum(b)
    requires |a| + 1 + |b| <= MaxSlugLength
    ensures GenerateSlug(a + " " + b) == a + "-" + b
  {
    TwoWordsKept(a, b);
    TwoWordsDashed(a, b);
    TwoWordsSquashed(a, b);
    assert SlugBody(a + " " + b) == a + "-" + b;
  }

  // ---------------------------------------------------------------- isValidEmail

  /** A character `[^\s@]` accepts. */
  predicate IsPlain(c: char) {
    !IsJsWhitespace(c) && c != '@'
  }

  /** `[^\s@]+`. */
  predicate PlainRun(s: string) {
    |s| > 0 && forall i :: 0 <= i < |s| ==> IsPlain(s[i])
  }

  /** The strings `/^[^\s@]+@[^\s@]+\.[^\s@]+$/` matches: local part, `@`, domain, `.`, last label. */
  predicate EmailShape(s: string) {
    exists k, j :: 0 < k && k + 1 < j < |s| - 1 && s[k] == '@' && s[j] == '.'
      && PlainRun(s[..k]) && PlainRun(s[k + 1..j]) && PlainRun(s[j + 1..])
  }

  /** The number of occurrences of `c` in `s`. */
  function Count(s: string, c: char): (n: nat)
    ensures n <= |s|
  {
    if s == [] then 0 else Count(s[..|s| - 1], c) + (if s[|s| - 1] == c then 1 else 0)
  }

  lemma {:induction false} CountAppend(a: string, b: string, c: char)
    ensures Count(a + b, c) == Count(a, c) + Count(b, c)
    decreases |b|
  {
    if b == [] {
      assert a + b == a;
    } else {
      var n := |b| - 1;
      CountAppend(a, b[..n], c);
      assert (a + b)[..|a + b| - 1] == a + b[..n];
    }
  }

  lemma {:induction false} CountAbsent(s: string, c: char)
    requires forall i :: 0 <= i < |s| ==> s[i] != c
    ensures Count(s, c) == 0
    decreases |s|
  {
    if s != [] {
      CountAbsent(s[..|s| - 1], c);
    }
  }

  lemma {:induction false} CountPresent(s: string, c: char, k: nat)
    requires k < |s| && s[k] == c
    ensures Count(s, c) >= 1
    decreases |s|
  {
    if k < |s| - 1 {
      CountPresent(s[..|s| - 1], c, k);
    }
  }

  /** Two occurrences count twice. */
  lemma {:induction false} CountTwo(s: string, c: char, a: nat, b: nat)
    requires a < b < |s| && s[a] == c && s[b] == c
    ensures Count(s, c) >= 2
    decreases |s|
  {
    var n := |s| - 1;
    if b == n {
      CountPresent(s[..n], c, a);
    } else {
      CountTwo(s[..n], c, a, b);
    }
  }

  /** The e-mail check: no whitespace, exactly one `@` with something before it, and a `.` in the part
      after the `@` that is neither its first nor its last character. */
  predicate IsValidEmail(email: string) {
    && (forall i :: 0 <= i < |email| ==> !IsJsWhitespace(email[i]))
    && Count(email, '@') == 1
    && (exists k, j :: 0 < k && k + 1 < j < |email| - 1 && email[k] == '@' && email[j] == '.')
  }

  /** Either the `@` at `k` is the only one, or there are at least two. */
  lemma OnlyAtOrTwo(s: string, k: nat)
    requires k < |s| && s[k] == '@'
    ensures (forall i :: 0 <= i < |s| && i != k ==> s[i] != '@') || Count(s, '@') >= 2
  {
    if exists i :: 0 <= i < |s| && i != k && s[i] == '@' {
      var i :| 0 <= i < |s| && i != k && s[i] == '@';
      if i < k {
        CountTwo(s, '@', i, k);
      } else {
        CountTwo(s, '@', k, i);
      }
    }
  }

  /** A slice of plain characters is a `[^\s@]+` run. */
  lemma PlainSlice(s: string, lo: nat, hi: nat)
    requires lo < hi <= |s| && forall i :: lo <= i < hi ==> IsPlain(s[i])
    ensures PlainRun(s[lo..hi])
  {
    forall i | 0 <= i < hi - lo
      ensures IsPlain(s[lo..hi][i])
    {
      assert s[lo..hi][i] == s[lo + i];
    }
  }

  /** What the check accepts, the pattern matches. */
  lemma ValidEmailHasShape(email: string)
    requires IsValidEmail(email)
    ensures EmailShape(email)
  {
    var k, j :| 0 < k && k + 1 < j < |email| - 1 && email[k] == '@' && email[j] == '.';
    OnlyAtOrTwo(email, k);
    assert forall i :: 0 <= i < |email| && i != k ==> IsPlain(email[i]);
    PlainSlice(email, 0, k);
    PlainSlice(email, k + 1, j);
    PlainSlice(email, j + 1, |email|);
    assert email[..k] == email[0..k] && email[j + 1..] == email[j + 1..|email|];
  }

  /** A match has exactly one `@`. */
  lemma ShapeCount(email: string, k: nat, j: nat)
    requires 0 < k && k + 1 < j < |email| - 1 && email[k] == '@' && email[j] == '.'
    requires PlainRun(email[..k]) && PlainRun(email[k + 1..j]) && PlainRun(email[j + 1..])
    ensures Count(email, '@') == 1
  {
    var before, domain, last := email[..k], email[k + 1..j], email[j + 1..];
    assert email == before + [email[k]] + domain + [email[j]] + last;
    CountAbsent(before, '@');
    CountAbsent(domain, '@');
    CountAbsent(last, '@');
    CountAppend(before, [email[k]], '@');
    CountAppend(before + [email[k]], domain, '@');
    CountAppend(before + [email[k]] + domain, [email[j]], '@');
    CountAppend(before + [email[k]] + domain + [email[j]], last, '@');
  }

  /** A match has no whitespace anywhere. */
  lemma ShapeNoWhitespace(email: string, k: nat, j: nat)
    requires 0 < k && k + 1 < j < |email| - 1 && email[k] == '@' && email[j] == '.'
    requires PlainRun(email[..k]) && PlainRun(email[k + 1..j]) && PlainRun(email[j + 1..])
    ensures forall i :: 0 <= i < |email| ==> !IsJsWhitespace(email[i])
  {
    forall i | 0 <= i < |email|
      ensures !IsJsWhitespace(email[i])
    {
      if i < k {
        assert email[i] == email[..k][i];
      } else if k < i < j {
        assert email[i] == email[k + 1..j][i - k - 1];
      } else if j < i {
        assert email[i] == email[j + 1..][i - j - 1];
      }
    }
  }

  /** The check accepts exactly the strings the pattern matches; a match has exactly one `@`. */
  lemma IsValidEmailIff(email: string)
    ensures IsValidEmail(email) <==> EmailShape(email)
    ensures EmailShape(email) ==> Count(email, '@') == 1
  {
    if IsValidEmail(email) {
      ValidEmailHasShape(email);
    }
    if EmailShape(email) {
      var k, j :| 0 < k && k + 1 < j < |email| - 1 && email[k] == '@' && email[j] == '.'
        && PlainRun(email[..k]) && PlainRun(email[k + 1..j]) && PlainRun(email[j + 1..]);
      ShapeCount(email, k, j);
      ShapeNoWhitespace(email, k, j);
    }
  }

  // ---------------------------------------------------------------- timeAgo

  /** Seconds in a year, month, week, day, hour and minute, largest first. */
  const Units: seq<int> := [31536000, 2592000, 604800, 86400, 3600, 60]

  const KoNames: seq<string> := ["년", "개월", "주", "일", "시간", "분"]
  const EnNames: seq<string> := ["year", "month", "week", "day", "hour", "minute"]

  /** The text for `count` of unit `i`; English adds a plural `s` to counts above one. */
  function Phrase(language: Language, count: nat, i: nat): string
    requires i < 6
  {
    match language
    case Ko => NatToString(count) + KoNames[i] + " 전"
    case En => NatToString(count) + " " + EnNames[i] + (if count > 1 then "s" else "") + " ago"
  }

  function JustNow(language: Language): string {
    match language
    case Ko => "방금 전"
    case En => "just now"
  }

  /** `timeAgo` once the elapsed whole seconds are known: the first unit, largest first, of which at
      least one whole has elapsed; `just now` under a minute, for a date in the future too. */
  method TimeAgo(seconds: int, language: Language) returns (r: string)
    ensures seconds < 60 ==> r == JustNow(language)
    ensures seconds >= 60 ==>
      exists i :: (0 <= i < 6 && seconds >= Units[i]
        && (forall j :: 0 <= j < i ==> seconds < Units[j])
        && r == Phrase(language, seconds / Units[i], i))
  {
    for i := 0 to 6
      invariant forall j :: 0 <= j < i ==> seconds < Units[j]
    {
      var interval := seconds / Units[i];
      WholeUnits(seconds, Units[i]);
      if interval >= 1 {
        assert Units[i] >= 60;
        return Phrase(language, interval, i);
      }
    }
    assert seconds < Units[5];
    return JustNow(language);
  }

  /** At least one whole unit has elapsed exactly when the seconds reach the unit. */
  lemma WholeUnits(seconds: int, unit: int)
    requires unit > 0
    ensures seconds / unit >= 1 <==> seconds >= unit
  {
    if seconds >= unit {
      assert seconds == unit * (seconds / unit) + seconds % unit;
    }
  }

  /** Each unit's count stays below the next larger unit: at most 12 months, 4 weeks, 6 days,
      23 hours or 59 minutes. */
  lemma CountBelowNextUnit(seconds: int, i: nat)
    requires 0 < i < 6 && seconds >= Units[i] && seconds < Units[i - 1]
    ensures 1 <= seconds / Units[i] <= [0, 12, 4, 6, 23, 59][i]
  {
  }

  /** English plural: `1 minute ago`, but `2 minutes ago`. */
  lemma EnglishPlural()
    ensures Phrase(En, 1, 5) == "1 minute ago"
    ensures Phrase(En, 2, 5) == "2 minutes ago"
  {
  }

  // ---------------------------------------------------------------- badges

  /** One class of a badge: a property prefix, the hue and a shade. */
  function Shade(property: string, hue: string, level: string): string {
    property + hue + level
  }

  /** The badge classes of one hue: light and dark background and text shades. */
  function ColorClasses(hue: string): string {
    Concat([Shade("bg-", hue, "-100"), " ", Shade("text-", hue, "-800"), " ",
            Shade("dark:bg-", hue, "-900"), " ", Shade("dark:text-", hue, "-300")])
  }

  function Hue(category: Category): string {
    match category
    case AI => "blue"
    case Education => "green"
    case AIEducation => "purple"
  }

  /** `getCategoryColor`: the light and dark background and text classes, all in the category's hue. */
  function GetCategoryColor(category: Category): (classes: string)
    ensures |classes| == 4 * |Hue(category)| + 45
    ensures var h := Hue(category);
      && Contains(classes, "bg-" + h + "-100") && Contains(classes, "text-" + h + "-800")
      && Contains(classes, "dark:bg-" + h + "-900") && Contains(classes, "dark:text-" + h + "-300")
  {
    var h := Hue(category);
    var parts := [Shade("bg-", h, "-100"), " ", Shade("text-", h, "-800"), " ",
                  Shade("dark:bg-", h, "-900"), " ", Shade("dark:text-", h, "-300")];
    PartOccurs(parts, 0);
    PartOccurs(parts, 2);
    PartOccurs(parts, 4);
    PartOccurs(parts, 6);
    ConcatLength(parts);
    assert TotalLength(parts[7..]) == 0;
    assert TotalLength(parts[6..]) == |parts[6]| + TotalLength(parts[7..]);
    assert TotalLength(parts[5..]) == |parts[5]| + TotalLength(parts[6..]);
    assert TotalLength(parts[4..]) == |parts[4]| + TotalLength(parts[5..]);
    assert TotalLength(parts[3..]) == |parts[3]| + TotalLength(parts[4..]);
    assert TotalLength(parts[2..]) == |parts[2]| + TotalLength(parts[3..]);
    assert TotalLength(parts[1..]) == |parts[1]| + TotalLength(parts[2..]);
    assert TotalLength(parts[0..]) == |parts[0]| + TotalLength(parts[1..]);
    assert parts[0..] == parts;
    ColorClasses(h)
  }

  /** Different categories get different badges. */
  lemma CategoryColorsDistinct(a: Category, b: Category)
    requires a != b
    ensures GetCategoryColor(a) != GetCategoryColor(b)
  {
    assert |Hue(a)| != |Hue(b)|;
  }

  /** The two-letter code of a country. */
  function CountryCode(country: Country): string {
    match country
    case KR => "KR"
    case US => "US"
  }

  /** The regional indicator symbol of an upper-case ASCII letter. */
  function RegionalIndicator(letter: char): char
    requires 'A' <= letter <= 'Z'
  {
    (0x1F1E6 + (letter as int - 'A' as int)) as char
  }

  /** `getCountryFlag`: the flag emoji of the country. */
  function GetCountryFlag(country: Country): (flag: string)
    ensures var code := CountryCode(country);
      flag == [RegionalIndicator(code[0]), RegionalIndicator(code[1])]
  {
    if country == KR then "\U{1F1F0}\U{1F1F7}" else "\U{1F1FA}\U{1F1F8}"
  }

  /** The two flags differ. */
  lemma CountryFlagsDistinct()
    ensures GetCountryFlag(KR) != GetCountryFlag(US)
  {
    assert GetCountryFlag(KR)[0] != GetCountryFlag(US)[0];
  }
}
