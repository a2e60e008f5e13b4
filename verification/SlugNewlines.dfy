/** When a raw newline in a heading makes the slug of its text differ from the slug of its normalised text. */
module SlugNewlines {
  import opened MarkdownAst

  // ---- the condition ------------------------------------------------------------------------------

  predicate IsSeparator(c: char) { c == ' ' || c == '\t' || c == '/' }

  /** Characters that are not simply dropped from a slug. */
  predicate IsMark(c: char) { IsSlugChar(c) || IsSeparator(c) }

  predicate IsLetter(c: char) { IsSlugChar(c) && c != '-' }

  /** The slug so far could take a dash. */
  predicate IsOpen(slug: string) { slug != "" && slug[|slug| - 1] != '-' }

  /** A newline at which the slug could take a dash. */
  predicate NewlineAt(t: string, i: nat) { i < |t| && t[i] == '\n' && IsOpen(SlugFold(t[..i])) }

  /** The index of the first mark at or after `i`, or the length. */
  function NextMark(t: string, i: nat): (k: nat)
    requires i <= |t|
    ensures i <= k <= |t|
    ensures k < |t| ==> IsMark(t[k])
    ensures forall j :: i <= j < k ==> !IsMark(t[j])
    decreases |t| - i
  {
    if i == |t| || IsMark(t[i]) then i else NextMark(t, i + 1)
  }

  ghost predicate LetterFrom(t: string, i: nat) { exists j :: i <= j < |t| && IsLetter(t[j]) }

  /** The newline separates two words for the normalised text only: the next mark is no separator, and a
      letter follows. */
  ghost predicate BreaksAt(t: string, i: nat) {
    NewlineAt(t, i) && LetterFrom(t, i + 1) && NextMark(t, i + 1) < |t| && IsSlugChar(t[NextMark(t, i + 1)])
  }

  ghost predicate HasBreakingNewline(t: string) { exists i: nat :: BreaksAt(t, i) }

  /** The newline has left a dash in the other slug that may still be trimmed or caught up with. */
  ghost predicate HangsAt(t: string, i: nat) {
    NewlineAt(t, i) && !LetterFrom(t, i + 1) && (NextMark(t, i + 1) == |t| || t[NextMark(t, i + 1)] == '-')
  }

  ghost predicate Hangs(t: string) { exists i: nat :: HangsAt(t, i) }

  // ---- one more character -------------------------------------------------------------------------

  lemma {:induction false} NextMarkSnoc(t: string, c: char, i: nat)
    requires i <= |t|
    ensures NextMark(t + [c], i) == if NextMark(t, i) < |t| || IsMark(c) then NextMark(t, i) else |t| + 1
    decreases |t| - i
  {
    var u := t + [c];
    if i == |t| {
      assert u[i] == c;
    } else {
      assert u[i] == t[i];
      if !IsMark(t[i]) { NextMarkSnoc(t, c, i + 1); }
    }
  }

  lemma {:induction false} AtSnoc(t: string, c: char, i: nat)
    ensures i < |t| ==> (NewlineAt(t + [c], i) <==> NewlineAt(t, i))
    ensures i < |t| ==> (LetterFrom(t + [c], i + 1) <==> LetterFrom(t, i + 1) || IsLetter(c))
    ensures NewlineAt(t + [c], |t|) <==> c == '\n' && IsOpen(SlugFold(t))
    ensures !LetterFrom(t + [c], |t| + 1)
  {
    var u := t + [c];
    assert u[..|t|] == t && u[|t|] == c;
    if i < |t| {
      assert u[..i] == t[..i] && u[i] == t[i];
      assert forall j :: i + 1 <= j < |t| ==> u[j] == t[j];
      if IsLetter(c) { assert IsLetter(u[|t|]); }
    }
  }

  /** What is known of the slug after a hanging newline: nothing was added, or dashes only. */
  lemma {:induction false} AfterHanging(t: string, i: nat)
    requires NewlineAt(t, i)
    ensures NextMark(t, i + 1) == |t| ==> IsOpen(SlugFold(t))
    ensures NextMark(t, i + 1) < |t| && t[NextMark(t, i + 1)] == '-' && !LetterFrom(t, i + 1) ==>
              SlugFold(t) != "" && !IsOpen(SlugFold(t))
    decreases |t|
  {
    var n := |t| - 1;
    var init, c := t[..n], t[n];
    assert t == init + [c];
    if i < n {
      AtSnoc(init, c, i);
      NextMarkSnoc(init, c, i + 1);
      AfterHanging(init, i);
      assert forall k :: 0 <= k < n ==> t[k] == init[k];
    }
  }

  lemma {:induction false} HangsStep(t: string, c: char)
    ensures Hangs(t + [c]) <==>
              if IsLetter(c) then false
              else if IsSeparator(c) then Hangs(t) && !IsOpen(SlugFold(t))
              else if c == '\n' then Hangs(t) || IsOpen(SlugFold(t))
              else Hangs(t)
  {
    var u := t + [c];
    assert forall k :: 0 <= k < |t| ==> u[k] == t[k];
    forall i: nat | i < |t|
      ensures HangsAt(u, i) <==> HangsAt(t, i) && !IsLetter(c) && (IsSeparator(c) ==> !IsOpen(SlugFold(t)))
    {
      AtSnoc(t, c, i);
      NextMarkSnoc(t, c, i + 1);
      if NewlineAt(t, i) { AfterHanging(t, i); }
    }
    AtSnoc(t, c, 0);
    assert HangsAt(u, |t|) <==> c == '\n' && IsOpen(SlugFold(t));
    if Hangs(t) {
      var i: nat :| HangsAt(t, i);
      assert HangsAt(u, i) || IsLetter(c) || (IsSeparator(c) && IsOpen(SlugFold(t)));
    }
    if Hangs(u) {
      var i: nat :| HangsAt(u, i);
      assert i < |t| ==> HangsAt(t, i);
    }
  }

  lemma {:induction false} BreaksAtSnoc(t: string, c: char, i: nat)
    ensures BreaksAt(t + [c], i) <==> BreaksAt(t, i) || (IsLetter(c) && HangsAt(t, i))
  {
    var u := t + [c];
    assert u[|t|] == c && forall k :: 0 <= k < |t| ==> u[k] == t[k];
    AtSnoc(t, c, i);
    if i < |t| { NextMarkSnoc(t, c, i + 1); }
  }

  lemma {:induction false} BreaksStep(t: string, c: char)
    ensures HasBreakingNewline(t + [c]) <==> HasBreakingNewline(t) || (IsLetter(c) && Hangs(t))
  {
    hide BreaksAt, HangsAt;
    var u := t + [c];
    forall i: nat ensures BreaksAt(u, i) <==> BreaksAt(t, i) || (IsLetter(c) && HangsAt(t, i)) {
      BreaksAtSnoc(t, c, i);
    }
  }

  // ---- the two slugs side by side -----------------------------------------------------------------

  lemma {:induction false} TrimSnoc(s: string, c: char)
    ensures TrimDashes(s + [c]) == if c == '-' then TrimDashes(s) else s + [c]
  {
    assert (s + [c])[..|s|] == s;
  }

  lemma {:induction false} TrimIsShorter(s: string)
    ensures |TrimDashes(s)| <= |s|
    ensures |TrimDashes(s)| == |s| <==> s == "" || IsOpen(s)
    ensures |TrimDashes(s)| == |s| ==> TrimDashes(s) == s
  {
    if s != "" && s[|s| - 1] == '-' { TrimIsShorter(s[..|s| - 1]); }
  }

  /** Dashes at the end of a slug. */
  function Tail(s: string): int { |s| - |TrimDashes(s)| }

  /** The slugs of a text and of the text with spaces for newlines: apart from dashes at the end they are
      equal unless a newline breaks, and then one is shorter; at the end one may have one dash more. */
  ghost predicate SideBySide(t: string) {
    var a, b := SlugFold(t), SlugFold(Spaced(t));
    && (a == "" <==> b == "")
    && Tail(b) == Tail(a) + (if Hangs(t) then 1 else 0)
    && (if HasBreakingNewline(t) then |TrimDashes(a)| < |TrimDashes(b)| else TrimDashes(a) == TrimDashes(b))
  }

  /** A text with trailing dashes is its trimmed form and the dashes. */
  lemma {:induction false} TrimAndTail(s: string)
    ensures Tail(s) >= 0 && s == TrimDashes(s) + seq(Tail(s), _ => '-')
  {
    if s != "" && s[|s| - 1] == '-' {
      TrimAndTail(s[..|s| - 1]);
      assert seq(Tail(s), _ => '-') == seq(Tail(s) - 1, _ => '-') + ['-'];
      assert s == s[..|s| - 1] + ['-'];
    }
  }

  /** How one more character changes a slug and its trailing dashes. */
  lemma {:induction false} SlugStepIs(a: string, c: char)
    ensures var a' := SlugStep(a, c);
            && (if IsLetter(c) then a' == a + [ToLower(c)] && TrimDashes(a') == a' && Tail(a') == 0
                else TrimDashes(a') == TrimDashes(a))
            && (c == '-' ==> Tail(a') == Tail(a) + 1)
            && (IsSeparator(c) ==> Tail(a') == if IsOpen(a) then 1 else Tail(a))
            && (!IsMark(c) ==> a' == a)
    ensures Tail(a) >= 0 && (IsOpen(a) <==> a != "" && Tail(a) == 0)
  {
    TrimIsShorter(a);
    TrimSnoc(a, '-');
    TrimSnoc(a, ToLower(c));
  }

  lemma {:induction false} SideBySideStep(t: string, c: char)
    requires SideBySide(t)
    ensures SideBySide(t + [c])
  {
    hide Hangs, HasBreakingNewline, SlugFold, SlugStep, TrimDashes;
    HangsStep(t, c);
    BreaksStep(t, c);
    var a, b := SlugFold(t), SlugFold(Spaced(t));
    var d := if c == '\n' then ' ' else c;
    assert Spaced(t + [c]) == Spaced(t) + [d];
    SlugFoldSnoc(t, c);
    SlugFoldSnoc(Spaced(t), d);
    SlugStepIs(a, c);
    SlugStepIs(b, d);
    SlugStepIsEmpty(a, c);
    SlugStepIsEmpty(b, d);
    if IsLetter(c) {
      TrimAndTail(a);
      TrimAndTail(b);
    }
  }

  lemma {:induction false} SlugStepIsEmpty(a: string, c: char)
    ensures SlugStep(a, c) == "" <==> a == "" && !IsSlugChar(c)
  {
  }

  lemma {:induction false} SlugsSideBySide(t: string)
    ensures SideBySide(t)
  {
    if t == "" {
      assert Spaced(t) == "";
    } else {
      SlugsSideBySide(t[..|t| - 1]);
      SideBySideStep(t[..|t| - 1], t[|t| - 1]);
      assert t == t[..|t| - 1] + [t[|t| - 1]];
    }
  }

  /** Normalising a heading keeps its slug if and only if no newline breaks it. */
  lemma {:induction false} NormalizingKeepsSlug(t: string)
    ensures Slugify(Normalize(t)) == Slugify(t) <==> !HasBreakingNewline(t)
  {
    hide HasBreakingNewline, Hangs;
    SlugOfNormalized(t);
    SlugsSideBySide(t);
    ShortSlugs(t);
  }

  /** A breaking newline comes after a character of the slug, so both slugs are proper ones. */
  lemma {:induction false} ShortSlugs(t: string)
    ensures HasBreakingNewline(t) ==> TrimDashes(SlugFold(t)) != ""
  {
    if HasBreakingNewline(t) {
      var i: nat :| BreaksAt(t, i);
      SlugGrows(t, i);
    }
  }

  lemma {:induction false} SlugGrows(t: string, i: nat)
    requires i <= |t| && TrimDashes(SlugFold(t[..i])) != ""
    ensures TrimDashes(SlugFold(t)) != ""
    decreases |t|
  {
    if i == |t| {
      assert t[..i] == t;
    } else {
      var init, c := t[..|t| - 1], t[|t| - 1];
      assert init[..i] == t[..i];
      SlugGrows(init, i);
      TrimSnoc(SlugFold(init), '-');
      TrimSnoc(SlugFold(init), ToLower(c));
    }
  }
}
