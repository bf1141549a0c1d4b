/**
 * The build-identifier comparator shared by `FirmwareMeta.is_newer_than` and
 * `KernelMeta.is_newer_than`, whose bodies are the same: a baseline shorter than four
 * characters is older than anything, a candidate shorter than four characters is never
 * newer, and otherwise the last four characters are compared one by one from the fourth
 * last, by code point.
 */
module Versions {

  import opened Pda

  /** `is_newer_than(old_pda)` of a record whose own identifier is `pda`. */
  function IsNewerThan(pda: string, oldPda: string): bool {
    if |oldPda| < 4 then true
    else if |pda| < 4 then false
    else if MajorVersion(pda) > MajorVersion(oldPda) then true
    else if MajorVersion(pda) == MajorVersion(oldPda) then
      if BuildYear(pda) > BuildYear(oldPda) then true
      else if BuildYear(pda) == BuildYear(oldPda) then
        if BuildMonth(pda) > BuildMonth(oldPda) then true
        else if BuildMonth(pda) == BuildMonth(oldPda) then BuildId(pda) > BuildId(oldPda)
        else false
      else false
    else false
  }

  /** Lexicographic "greater than" on sequences of equal length: the first difference decides. */
  predicate LexGreater(a: seq<char>, b: seq<char>)
    requires |a| == |b|
  {
    if a == [] then false
    else if a[0] != b[0] then a[0] > b[0]
    else LexGreater(a[1..], b[1..])
  }

  lemma {:induction false} LexGreaterIrreflexive(a: seq<char>)
    ensures !LexGreater(a, a)
  {
    if a != [] {
      LexGreaterIrreflexive(a[1..]);
    }
  }

  lemma {:induction false} LexGreaterAsymmetric(a: seq<char>, b: seq<char>)
    requires |a| == |b| && LexGreater(a, b)
    ensures !LexGreater(b, a)
  {
    if a[0] == b[0] {
      LexGreaterAsymmetric(a[1..], b[1..]);
    }
  }

  lemma {:induction false} LexGreaterTransitive(a: seq<char>, b: seq<char>, c: seq<char>)
    requires |a| == |b| == |c| && LexGreater(a, b) && LexGreater(b, c)
    ensures LexGreater(a, c)
  {
    if a[0] == b[0] && b[0] == c[0] {
      LexGreaterTransitive(a[1..], b[1..], c[1..]);
    }
  }

  lemma {:induction false} LexGreaterTrichotomy(a: seq<char>, b: seq<char>)
    requires |a| == |b|
    ensures LexGreater(a, b) || LexGreater(b, a) || a == b
  {
    if a != [] && a[0] == b[0] {
      LexGreaterTrichotomy(a[1..], b[1..]);
      assert a == [a[0]] + a[1..] && b == [b[0]] + b[1..];
    }
  }

  /** A baseline shorter than four characters is older than any candidate. */
  lemma ShortBaselineIsOlder(pda: string, oldPda: string)
    requires |oldPda| < 4
    ensures IsNewerThan(pda, oldPda)
  {
  }

  /** Against a baseline of four or more characters, a short candidate is never newer. */
  lemma ShortCandidateIsNotNewer(pda: string, oldPda: string)
    requires |oldPda| >= 4 && |pda| < 4
    ensures !IsNewerThan(pda, oldPda)
  {
  }

  /**
   * When both have four or more characters the comparator is the lexicographic order of
   * the last four characters.
   */
  lemma NewerIsLexGreater(pda: string, oldPda: string)
    requires |pda| >= 4 && |oldPda| >= 4
    ensures IsNewerThan(pda, oldPda) == LexGreater(LastFour(pda), LastFour(oldPda))
  {
    var a, b := LastFour(pda), LastFour(oldPda);
    assert a[0] == MajorVersion(pda) && b[0] == MajorVersion(oldPda);
    assert a[1..][0] == BuildYear(pda) && b[1..][0] == BuildYear(oldPda);
    assert a[1..][1..][0] == BuildMonth(pda) && b[1..][1..][0] == BuildMonth(oldPda);
    assert a[1..][1..][1..][0] == BuildId(pda) && b[1..][1..][1..][0] == BuildId(oldPda);
    assert a[1..][1..][1..][1..] == [] && b[1..][1..][1..][1..] == [];
    assert !LexGreater(a[1..][1..][1..][1..], b[1..][1..][1..][1..]);
    assert LexGreater(a[1..][1..][1..], b[1..][1..][1..]) == (BuildId(pda) > BuildId(oldPda));
    assert LexGreater(a[1..][1..], b[1..][1..])
      == if BuildMonth(pda) != BuildMonth(oldPda) then BuildMonth(pda) > BuildMonth(oldPda)
         else BuildId(pda) > BuildId(oldPda);
  }

  lemma NewerIrreflexive(pda: string)
    requires |pda| >= 4
    ensures !IsNewerThan(pda, pda)
  {
    NewerIsLexGreater(pda, pda);
    LexGreaterIrreflexive(LastFour(pda));
  }

  lemma NewerAsymmetric(a: string, b: string)
    requires |a| >= 4 && |b| >= 4 && IsNewerThan(a, b)
    ensures !IsNewerThan(b, a)
  {
    NewerIsLexGreater(a, b);
    NewerIsLexGreater(b, a);
    LexGreaterAsymmetric(LastFour(a), LastFour(b));
  }

  lemma NewerTransitive(a: string, b: string, c: string)
    requires |a| >= 4 && |b| >= 4 && |c| >= 4
    requires IsNewerThan(a, b) && IsNewerThan(b, c)
    ensures IsNewerThan(a, c)
  {
    NewerIsLexGreater(a, b);
    NewerIsLexGreater(b, c);
    NewerIsLexGreater(a, c);
    LexGreaterTransitive(LastFour(a), LastFour(b), LastFour(c));
  }

  /**
   * For identifiers of four or more characters exactly one holds: `a` is newer, `b` is
   * newer, or their last four characters are equal (and then neither is newer).
   */
  lemma NewerTrichotomy(a: string, b: string)
    requires |a| >= 4 && |b| >= 4
    ensures IsNewerThan(a, b) || IsNewerThan(b, a) || LastFour(a) == LastFour(b)
    ensures LastFour(a) == LastFour(b) ==> !IsNewerThan(a, b) && !IsNewerThan(b, a)
  {
    NewerIsLexGreater(a, b);
    NewerIsLexGreater(b, a);
    LexGreaterTrichotomy(LastFour(a), LastFour(b));
    if LastFour(a) == LastFour(b) {
      LexGreaterIrreflexive(LastFour(a));
    }
  }

  /** Characters before the last four never change the verdict, on either side. */
  lemma NewerIgnoresPrefixes(a: string, a': string, b: string)
    requires |a| >= 4 && |a'| >= 4 && |b| >= 4 && LastFour(a) == LastFour(a')
    ensures IsNewerThan(a, b) == IsNewerThan(a', b)
    ensures IsNewerThan(b, a) == IsNewerThan(b, a')
  {
    NewerIsLexGreater(a, b);
    NewerIsLexGreater(a', b);
    NewerIsLexGreater(b, a);
    NewerIsLexGreater(b, a');
  }

  /**
   * Only the last four characters are read: two identifiers that differ only in the
   * character just before them (the bootloader digit of this example) are not ordered.
   */
  lemma ExampleFifthLastIsUnseen()
    ensures !IsNewerThan("S916BXXU2BAB1", "S916BXXU1BAB1")
    ensures IsNewerThan("S916BXXU1BAC1", "S916BXXU2BAB1")
  {
    NewerIgnoresPrefixes("S916BXXU2BAB1", "BAB1", "S916BXXU1BAB1");
    NewerIgnoresPrefixes("S916BXXU1BAB1", "BAB1", "BAB1");
    NewerIrreflexive("BAB1");
  }
}
