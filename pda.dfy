/**
 * The four fields of a build identifier ("PDA"), read from its end: the major version,
 * the build year, the build month and the build sequence character. Each accessor is one
 * negative index, so it is defined exactly when the string is long enough for that index.
 */
module Pda {

  /** `pda[-4]`. */
  function MajorVersion(pda: string): char
    requires |pda| >= 4
  {
    pda[|pda| - 4]
  }

  /** `pda[-3]`. */
  function BuildYear(pda: string): char
    requires |pda| >= 3
  {
    pda[|pda| - 3]
  }

  /** `pda[-2]`. */
  function BuildMonth(pda: string): char
    requires |pda| >= 2
  {
    pda[|pda| - 2]
  }

  /** `pda[-1]`. */
  function BuildId(pda: string): char
    requires |pda| >= 1
  {
    pda[|pda| - 1]
  }

  /** The part of a build identifier that carries meaning. */
  function LastFour(pda: string): (r: string)
    requires |pda| >= 4
    ensures |r| == 4 && pda == pda[..|pda| - 4] + r
  {
    pda[|pda| - 4..]
  }

  /** The four accessors read, in order, exactly the last four characters. */
  lemma AccessorsSpellLastFour(pda: string)
    requires |pda| >= 4
    ensures [MajorVersion(pda), BuildYear(pda), BuildMonth(pda), BuildId(pda)] == LastFour(pda)
  {
  }

  /** The accessors never look before the last four characters. */
  lemma AccessorsIgnorePrefix(prefix: string, pda: string)
    requires |pda| >= 4
    ensures MajorVersion(prefix + pda) == MajorVersion(pda)
    ensures BuildYear(prefix + pda) == BuildYear(pda)
    ensures BuildMonth(prefix + pda) == BuildMonth(pda)
    ensures BuildId(prefix + pda) == BuildId(pda)
  {
  }

  /** Two identifiers agree on all four accessors iff their last four characters are equal. */
  lemma AccessorsAgreeIff(a: string, b: string)
    requires |a| >= 4 && |b| >= 4
    ensures (MajorVersion(a) == MajorVersion(b) && BuildYear(a) == BuildYear(b)
             && BuildMonth(a) == BuildMonth(b) && BuildId(a) == BuildId(b))
            <==> LastFour(a) == LastFour(b)
  {
    AccessorsSpellLastFour(a);
    AccessorsSpellLastFour(b);
  }
}
