/** The four anchored label grammars of Artin representations and Galois
    orbits, written segment by segment over the `.`-pieces of a label, and the
    two label manipulations built on them: dropping a representation's member
    letters to get its orbit, and appending member letters to an orbit. */
module LabelGrammar {
  import opened Strings

  /** `\d+(m\d+)?` for a marker character `m`. */
  predicate DigitsWithOptional(s: string, marker: char) {
    var p := Split(s, marker);
    |p| <= 2 && forall i :: 0 <= i < |p| ==> IsDigits(p[i])
  }

  /** The Galois-group segment `\d+(t\d+)?`. */
  predicate IsGroupSegment(s: string) {
    DigitsWithOptional(s, 't')
  }

  /** The legacy conductor segment `\d+(e\d+)?(_\d+(e\d+)?)*`. */
  predicate IsLegacyConductorSegment(s: string) {
    var p := Split(s, '_');
    forall i :: 0 <= i < |p| ==> DigitsWithOptional(p[i], 'e')
  }

  /** The legacy member segment `\d+c\d+`. */
  predicate IsLegacyMemberSegment(s: string) {
    var p := Split(s, 'c');
    |p| == 2 && IsDigits(p[0]) && IsDigits(p[1])
  }

  /** `LABEL_RE`: `dim.cond.grp[tN].orbit.member`. */
  predicate IsRepLabel(s: string) {
    var p := Split(s, '.');
    |p| == 5 && IsDigits(p[0]) && IsDigits(p[1]) && IsGroupSegment(p[2])
    && IsLetters(p[3]) && IsLetters(p[4])
  }

  /** `ORBIT_RE`: `dim.cond.grp[tN].orbit`. */
  predicate IsOrbitLabel(s: string) {
    var p := Split(s, '.');
    |p| == 4 && IsDigits(p[0]) && IsDigits(p[1]) && IsGroupSegment(p[2])
    && IsLetters(p[3])
  }

  /** `OLD_LABEL_RE`: `dim.cond[eK](_p[eK])*.grp[tN].NcM`. */
  predicate IsLegacyRepLabel(s: string) {
    var p := Split(s, '.');
    |p| == 4 && IsDigits(p[0]) && IsLegacyConductorSegment(p[1])
    && IsGroupSegment(p[2]) && IsLegacyMemberSegment(p[3])
  }

  /** `OLD_ORBIT_RE`: `dim.cond[eK](_p[eK])*.grp[tN].N`. */
  predicate IsLegacyOrbitLabel(s: string) {
    var p := Split(s, '.');
    |p| == 4 && IsDigits(p[0]) && IsLegacyConductorSegment(p[1])
    && IsGroupSegment(p[2]) && IsDigits(p[3])
  }

  /** Which grammar, if any, a string belongs to. */
  datatype LabelForm = CurrentRep | CurrentOrbit | LegacyRep | LegacyOrbit | NoForm

  /** A legacy member segment contains its `c`, and so is never all digits
      and never all letters. */
  lemma LegacyMemberSegmentShape(s: string)
    requires IsLegacyMemberSegment(s)
    ensures 'c' in s && IsDigit(s[0])
  {
    SplitHeadIsPrefix(s, 'c');
    assert Split(s, 'c')[0][0] == s[0];
  }

  /** The four grammars are pairwise disjoint. */
  lemma GrammarsDisjoint(s: string)
    ensures !(IsRepLabel(s) && IsOrbitLabel(s))
    ensures !(IsRepLabel(s) && IsLegacyRepLabel(s))
    ensures !(IsRepLabel(s) && IsLegacyOrbitLabel(s))
    ensures !(IsOrbitLabel(s) && IsLegacyRepLabel(s))
    ensures !(IsOrbitLabel(s) && IsLegacyOrbitLabel(s))
    ensures !(IsLegacyRepLabel(s) && IsLegacyOrbitLabel(s))
  {
    var last := Split(s, '.')[|Split(s, '.')| - 1];
    if IsLegacyRepLabel(s) {
      LegacyMemberSegmentShape(last);
      assert !IsLower(last[0]);
      assert !IsDigit('c');
    }
    if IsOrbitLabel(s) {
      assert IsLower(last[0]);
    }
  }

  /** Classification of a string by the four grammars; disjointness makes
      the answer unique. */
  function FormOf(s: string): (r: LabelForm)
    ensures r == CurrentRep <==> IsRepLabel(s)
    ensures r == CurrentOrbit <==> IsOrbitLabel(s)
    ensures r == LegacyRep <==> IsLegacyRepLabel(s)
    ensures r == LegacyOrbit <==> IsLegacyOrbitLabel(s)
  {
    GrammarsDisjoint(s);
    if IsRepLabel(s) then CurrentRep
    else if IsOrbitLabel(s) then CurrentOrbit
    else if IsLegacyRepLabel(s) then LegacyRep
    else if IsLegacyOrbitLabel(s) then LegacyOrbit
    else NoForm
  }

  /** `\d+(m\d+)?` never contains a dot. */
  lemma DigitsWithOptionalHasNoDot(s: string, marker: char)
    requires marker != '.' && DigitsWithOptional(s, marker)
    ensures '.' !in s
  {
    assert !IsDigit('.');
    var q := Split(s, marker);
    JoinSplit(s, marker);
    if |q| == 2 {
      assert s == q[0] + [marker] + q[1];
    }
  }

  /** No segment of any of the four grammars contains a dot. */
  lemma SegmentHasNoDot(s: string)
    requires || IsDigits(s) || IsLetters(s) || IsGroupSegment(s)
             || IsLegacyConductorSegment(s) || IsLegacyMemberSegment(s)
    ensures '.' !in s
  {
    assert !IsDigit('.') && !IsLower('.');
    if IsGroupSegment(s) {
      DigitsWithOptionalHasNoDot(s, 't');
    } else if IsLegacyConductorSegment(s) {
      var p := Split(s, '_');
      forall i | 0 <= i < |p|
        ensures '.' !in p[i]
      {
        DigitsWithOptionalHasNoDot(p[i], 'e');
      }
      JoinSplit(s, '_');
      JoinExcludes(p, '_', '.');
    } else if IsLegacyMemberSegment(s) {
      var q := Split(s, 'c');
      JoinSplit(s, 'c');
      assert s == q[0] + ['c'] + q[1];
    }
  }

  /** Four segments joined by dots. */
  function Dotted4(a: string, b: string, c: string, d: string): string {
    a + "." + b + "." + c + "." + d
  }

  /** Five segments joined by dots. */
  function Dotted5(a: string, b: string, c: string, d: string, e: string): string {
    Dotted4(a, b, c, d) + "." + e
  }

  lemma JoinFour(a: string, b: string, c: string, d: string)
    ensures Join([a, b, c, d], '.') == Dotted4(a, b, c, d)
  {
    var parts := [a, b, c, d];
    assert Join(parts[3..], '.') == d;
    assert Join(parts[2..], '.') == c + "." + d;
    assert Join(parts[1..], '.') == b + "." + c + "." + d;
  }

  lemma JoinFive(a: string, b: string, c: string, d: string, e: string)
    ensures Join([a, b, c, d, e], '.') == Dotted5(a, b, c, d, e)
  {
    assert [a, b, c, d] + [e] == [a, b, c, d, e];
    JoinAppend([a, b, c, d], [e], '.');
    JoinFour(a, b, c, d);
  }

  /** Dot-free segments joined by dots split back into those segments. */
  lemma SplitDotted4(a: string, b: string, c: string, d: string)
    requires '.' !in a && '.' !in b && '.' !in c && '.' !in d
    ensures Split(Dotted4(a, b, c, d), '.') == [a, b, c, d]
  {
    SplitJoin([a, b, c, d], '.');
    JoinFour(a, b, c, d);
  }

  lemma SplitDotted5(a: string, b: string, c: string, d: string, e: string)
    requires '.' !in a && '.' !in b && '.' !in c && '.' !in d && '.' !in e
    ensures Split(Dotted5(a, b, c, d, e), '.') == [a, b, c, d, e]
  {
    SplitJoin([a, b, c, d, e], '.');
    JoinFive(a, b, c, d, e);
  }

  /** A string with four dot-separated pieces is those pieces joined. */
  lemma FourPieces(s: string)
    requires |Split(s, '.')| == 4
    ensures var p := Split(s, '.'); s == Dotted4(p[0], p[1], p[2], p[3])
  {
    var p := Split(s, '.');
    JoinSplit(s, '.');
    assert p == [p[0], p[1], p[2], p[3]];
    JoinFour(p[0], p[1], p[2], p[3]);
  }

  /** A string with five dot-separated pieces is those pieces joined. */
  lemma FivePieces(s: string)
    requires |Split(s, '.')| == 5
    ensures var p := Split(s, '.'); s == Dotted5(p[0], p[1], p[2], p[3], p[4])
  {
    var p := Split(s, '.');
    JoinSplit(s, '.');
    assert p == [p[0], p[1], p[2], p[3], p[4]];
    JoinFive(p[0], p[1], p[2], p[3], p[4]);
  }

  /** Five segments with the right shapes join into a representation label. */
  lemma RepLabelFromSegments(dim: string, cond: string, grp: string, orbit: string, member: string)
    requires IsDigits(dim) && IsDigits(cond) && IsGroupSegment(grp)
    requires IsLetters(orbit) && IsLetters(member)
    ensures IsRepLabel(Dotted5(dim, cond, grp, orbit, member))
  {
    SegmentHasNoDot(dim);
    SegmentHasNoDot(cond);
    SegmentHasNoDot(grp);
    SegmentHasNoDot(orbit);
    SegmentHasNoDot(member);
    SplitDotted5(dim, cond, grp, orbit, member);
  }

  /** `LABEL_RE` matches exactly the strings `dim.cond.grp.orbit.member` with
      digit runs `dim` and `cond`, a group segment `grp`, and letter runs
      `orbit` and `member`. */
  lemma RepLabelGrammar(s: string)
    ensures IsRepLabel(s) <==>
              exists dim, cond, grp, orbit, member ::
                && IsDigits(dim) && IsDigits(cond) && IsGroupSegment(grp)
                && IsLetters(orbit) && IsLetters(member)
                && s == Dotted5(dim, cond, grp, orbit, member)
  {
    if IsRepLabel(s) {
      FivePieces(s);
    }
    if exists dim, cond, grp, orbit, member ::
         && IsDigits(dim) && IsDigits(cond) && IsGroupSegment(grp)
         && IsLetters(orbit) && IsLetters(member)
         && s == Dotted5(dim, cond, grp, orbit, member)
    {
      var dim, cond, grp, orbit, member :|
        && IsDigits(dim) && IsDigits(cond) && IsGroupSegment(grp)
        && IsLetters(orbit) && IsLetters(member)
        && s == Dotted5(dim, cond, grp, orbit, member);
      RepLabelFromSegments(dim, cond, grp, orbit, member);
    }
  }

  /** `ORBIT_RE` matches exactly the strings `dim.cond.grp.orbit` with digit
      runs `dim` and `cond`, a group segment `grp` and a letter run `orbit`. */
  lemma OrbitLabelGrammar(s: string)
    ensures IsOrbitLabel(s) <==>
              exists dim, cond, grp, orbit ::
                && IsDigits(dim) && IsDigits(cond) && IsGroupSegment(grp) && IsLetters(orbit)
                && s == Dotted4(dim, cond, grp, orbit)
  {
    if IsOrbitLabel(s) {
      FourPieces(s);
    }
    if exists dim, cond, grp, orbit ::
         && IsDigits(dim) && IsDigits(cond) && IsGroupSegment(grp) && IsLetters(orbit)
         && s == Dotted4(dim, cond, grp, orbit)
    {
      var dim, cond, grp, orbit :|
        && IsDigits(dim) && IsDigits(cond) && IsGroupSegment(grp) && IsLetters(orbit)
        && s == Dotted4(dim, cond, grp, orbit);
      SegmentHasNoDot(dim);
      SegmentHasNoDot(cond);
      SegmentHasNoDot(grp);
      SegmentHasNoDot(orbit);
      SplitDotted4(dim, cond, grp, orbit);
    }
  }

  /** `OLD_LABEL_RE` matches exactly the strings `dim.cond.grp.member` with a
      digit run `dim`, a legacy conductor segment `cond`, a group segment
      `grp` and a member segment `NcM`. */
  lemma LegacyRepLabelGrammar(s: string)
    ensures IsLegacyRepLabel(s) <==>
              exists dim, cond, grp, member ::
                && IsDigits(dim) && IsLegacyConductorSegment(cond) && IsGroupSegment(grp)
                && IsLegacyMemberSegment(member)
                && s == Dotted4(dim, cond, grp, member)
  {
    if IsLegacyRepLabel(s) {
      FourPieces(s);
    }
    if exists dim, cond, grp, member ::
         && IsDigits(dim) && IsLegacyConductorSegment(cond) && IsGroupSegment(grp)
         && IsLegacyMemberSegment(member)
         && s == Dotted4(dim, cond, grp, member)
    {
      var dim, cond, grp, member :|
        && IsDigits(dim) && IsLegacyConductorSegment(cond) && IsGroupSegment(grp)
        && IsLegacyMemberSegment(member)
        && s == Dotted4(dim, cond, grp, member);
      SegmentHasNoDot(dim);
      SegmentHasNoDot(cond);
      SegmentHasNoDot(grp);
      SegmentHasNoDot(member);
      SplitDotted4(dim, cond, grp, member);
    }
  }

  /** `OLD_ORBIT_RE` matches exactly the strings `dim.cond.grp.n` with digit
      runs `dim` and `n`, a legacy conductor segment `cond` and a group
      segment `grp`. */
  lemma LegacyOrbitLabelGrammar(s: string)
    ensures IsLegacyOrbitLabel(s) <==>
              exists dim, cond, grp, n ::
                && IsDigits(dim) && IsLegacyConductorSegment(cond) && IsGroupSegment(grp)
                && IsDigits(n)
                && s == Dotted4(dim, cond, grp, n)
  {
    if IsLegacyOrbitLabel(s) {
      FourPieces(s);
    }
    if exists dim, cond, grp, n ::
         && IsDigits(dim) && IsLegacyConductorSegment(cond) && IsGroupSegment(grp)
         && IsDigits(n)
         && s == Dotted4(dim, cond, grp, n)
    {
      var dim, cond, grp, n :|
        && IsDigits(dim) && IsLegacyConductorSegment(cond) && IsGroupSegment(grp)
        && IsDigits(n)
        && s == Dotted4(dim, cond, grp, n);
      SegmentHasNoDot(dim);
      SegmentHasNoDot(cond);
      SegmentHasNoDot(grp);
      SegmentHasNoDot(n);
      SplitDotted4(dim, cond, grp, n);
    }
  }

  /** Length of the run of lower-case letters that ends the string. */
  function TrailingLetterCount(s: string): (k: nat)
    ensures k <= |s|
    ensures forall i :: |s| - k <= i < |s| ==> IsLower(s[i])
    ensures k < |s| ==> !IsLower(s[|s| - k - 1])
  {
    if |s| == 0 || !IsLower(s[|s| - 1]) then 0
    else 1 + TrailingLetterCount(s[..|s| - 1])
  }

  /** `re.sub(r'\.[a-z]+$', '', s)`: a final `.letters` segment is dropped,
      anything else is left alone. */
  function StripMemberSuffix(s: string): (r: string)
    ensures r == s || (|r| < |s| && s == r + "." + s[|r| + 1..] && IsLetters(s[|r| + 1..]))
  {
    var k := TrailingLetterCount(s);
    if 0 < k < |s| && s[|s| - k - 1] == '.' then
      assert s == s[..|s| - k - 1] + "." + s[|s| - k..];
      s[..|s| - k - 1]
    else s
  }

  /** The strip does apply whenever the string ends in `.letters`, and it
      removes exactly that segment. */
  lemma StripDotLetters(t: string, x: string)
    requires IsLetters(x)
    ensures StripMemberSuffix(t + "." + x) == t
  {
    var s := t + "." + x;
    var k := TrailingLetterCount(s);
    assert s[|t|] == '.' && !IsLower('.');
    assert forall i :: |t| + 1 <= i < |s| ==> IsLower(s[i]);
    assert k == |x|;
    assert s[..|s| - k - 1] == t;
  }

  /** `label + '.' + letters`: the label of an orbit member. */
  function MemberLabel(orbit: string, letters: string): (r: string)
    ensures IsOrbitLabel(orbit) && IsLetters(letters) ==> IsRepLabel(r)
    ensures IsLetters(letters) ==> StripMemberSuffix(r) == orbit
    ensures IsLetters(letters) ==> Split(r, '.') == Split(orbit, '.') + [letters]
  {
    AppendedLetters(orbit, letters);
    orbit + "." + letters
  }

  lemma AppendedLetters(orbit: string, letters: string)
    ensures IsLetters(letters) ==> StripMemberSuffix(orbit + "." + letters) == orbit
    ensures IsLetters(letters) ==> Split(orbit + "." + letters, '.') == Split(orbit, '.') + [letters]
  {
    if IsLetters(letters) {
      StripDotLetters(orbit, letters);
      assert '.' !in letters by {
        assert !IsLower('.');
      }
      SplitAround(orbit, '.', letters);
      SplitWithoutSeparator(letters, '.');
    }
  }

  /** Every representation label is a member of the orbit its strip names:
      stripping gives an orbit label, and appending the stripped letters
      gives the label back. */
  lemma RepLabelDecomposes(s: string)
    requires IsRepLabel(s)
    ensures IsOrbitLabel(StripMemberSuffix(s))
    ensures MemberLabel(StripMemberSuffix(s), Split(s, '.')[4]) == s
  {
    var p := Split(s, '.');
    JoinSplit(s, '.');
    JoinAppend(p[..4], [p[4]], '.');
    assert p[..4] + [p[4]] == p;
    var t := Join(p[..4], '.');
    assert s == t + "." + p[4];
    StripDotLetters(t, p[4]);
    SplitJoin(p[..4], '.');
  }

  /** Different member letters give different member labels. */
  lemma MemberLabelInjective(orbit: string)
    ensures forall a, b :: MemberLabel(orbit, a) == MemberLabel(orbit, b) ==> a == b
  {
    forall a, b | MemberLabel(orbit, a) == MemberLabel(orbit, b)
      ensures a == b
    {
      assert a == MemberLabel(orbit, a)[|orbit| + 1..];
      assert b == MemberLabel(orbit, b)[|orbit| + 1..];
    }
  }

  /** The member labels of an orbit, one per member-letter suffix, in order
      (the suffixes come from the member numbering, which is not modelled). */
  function MemberLabels(orbit: string, suffixes: seq<string>): (r: seq<string>)
    ensures |r| == |suffixes|
    ensures forall i :: 0 <= i < |r| ==> r[i] == MemberLabel(orbit, suffixes[i])
    ensures forall i :: 0 <= i < |r| && IsLetters(suffixes[i]) ==> StripMemberSuffix(r[i]) == orbit
    ensures forall i :: 0 <= i < |r| && IsOrbitLabel(orbit) && IsLetters(suffixes[i]) ==> IsRepLabel(r[i])
    ensures forall i, j :: 0 <= i < |r| && 0 <= j < |r| && suffixes[i] != suffixes[j] ==> r[i] != r[j]
  {
    if |suffixes| == 0 then []
    else
      var rest := MemberLabels(orbit, suffixes[1..]);
      var here := MemberLabel(orbit, suffixes[0]);
      MemberLabelInjective(orbit);
      [here] + rest
  }

  /** `6t13` is a group segment. */
  lemma GroupSegmentExample()
    ensures IsGroupSegment("6t13")
  {
    SplitAround("6", 't', "13");
    assert "6" + ['t'] + "13" == "6t13";
    SplitWithoutSeparator("6", 't');
    SplitWithoutSeparator("13", 't');
  }

  /** `4.5648.6t13.b.a` is a representation label. */
  lemma RepLabelExample()
    ensures Dotted5("4", "5648", "6t13", "b", "a") == "4.5648.6t13.b.a"
    ensures IsRepLabel("4.5648.6t13.b.a")
  {
    GroupSegmentExample();
    assert Dotted5("4", "5648", "6t13", "b", "a") == "4.5648.6t13.b.a";
    RepLabelFromSegments("4", "5648", "6t13", "b", "a");
  }

  /** `4.5648.6t13.b`, the orbit of `4.5648.6t13.b.a`, is an orbit label. */
  lemma OrbitLabelExample()
    ensures Dotted4("4", "5648", "6t13", "b") == "4.5648.6t13.b"
    ensures IsOrbitLabel("4.5648.6t13.b")
  {
    GroupSegmentExample();
    assert Dotted4("4", "5648", "6t13", "b") == "4.5648.6t13.b";
    SegmentHasNoDot("4");
    SegmentHasNoDot("5648");
    SegmentHasNoDot("6t13");
    SegmentHasNoDot("b");
    SplitDotted4("4", "5648", "6t13", "b");
  }
}
