/** The unique-slug loop shared by `Project.save`, `BlogPost.save`,
    `Service.save` and `Career.save`: starting from the slugified title, try
    `base`, `base-1`, `base-2`, ... until a candidate is not used by any other
    row of the same table. */
module Slugs {

  // ---------------------------------------------------------------------
  // Decimal rendering of the counter (`f"{base_slug}-{counter}"`)
  // ---------------------------------------------------------------------

  predicate IsDigits(s: string)
  {
    forall i :: 0 <= i < |s| ==> '0' <= s[i] <= '9'
  }

  function Digit(d: nat): char
    requires d < 10
  {
    ('0' as int + d) as char
  }

  /** `str(n)` for a natural number. */
  function NatToString(n: nat): (s: string)
    ensures |s| >= 1 && IsDigits(s)
  {
    if n < 10 then [Digit(n)] else NatToString(n / 10) + [Digit(n % 10)]
  }

  /** The value of a string of decimal digits (the inverse of `NatToString`). */
  function ParseDigits(s: string): nat
    requires IsDigits(s)
  {
    if s == [] then 0
    else ParseDigits(s[..|s| - 1]) * 10 + (s[|s| - 1] as int - '0' as int)
  }

  /** Reading back the decimal rendering of `n` gives `n`. */
  lemma {:induction false} ParseNatToString(n: nat)
    ensures ParseDigits(NatToString(n)) == n
  {
    var s := NatToString(n);
    if n < 10 {
      assert s[..|s| - 1] == [];
    } else {
      ParseNatToString(n / 10);
      assert s[..|s| - 1] == NatToString(n / 10);
    }
  }

  /** Different counters render differently. */
  lemma NatToStringInjective(j: nat, k: nat)
    requires NatToString(j) == NatToString(k)
    ensures j == k
  {
    ParseNatToString(j);
    ParseNatToString(k);
  }

  // ---------------------------------------------------------------------
  // Candidates
  // ---------------------------------------------------------------------

  /** The candidate tried at step `k` of the loop: the base itself, then
      the base with `-k` appended. */
  function Candidate(base: string, k: nat): string
  {
    if k == 0 then base else base + "-" + NatToString(k)
  }

  /** The loop never tries the same candidate twice. */
  lemma CandidateInjective(base: string, j: nat, k: nat)
    requires Candidate(base, j) == Candidate(base, k)
    ensures j == k
  {
    if j != 0 && k != 0 {
      var c := Candidate(base, j);
      assert NatToString(j) == c[|base| + 1..];
      assert NatToString(k) == c[|base| + 1..];
      NatToStringInjective(j, k);
    }
  }

  /** `slug` is what the loop settles on when the other rows use the slugs
      in `taken`: the first candidate, in the loop's order, that is free. */
  ghost predicate FirstFree(base: string, taken: set<string>, slug: string)
  {
    exists k: nat ::
      slug == Candidate(base, k) && slug !in taken &&
      forall j: nat :: j < k ==> Candidate(base, j) in taken
  }

  /** The slug loop: terminates for every finite set of used slugs and
      returns the first free candidate. */
  method UniqueSlug(base: string, taken: set<string>) returns (slug: string)
    ensures slug !in taken
    ensures FirstFree(base, taken, slug)
  {
    slug := base;
    var counter: nat := 1;
    // used candidates that the loop has not moved past yet
    ghost var pending := taken;
    while slug in taken
      invariant counter >= 1
      invariant slug == Candidate(base, counter - 1)
      invariant forall j: nat :: j < counter - 1 ==> Candidate(base, j) in taken
      invariant pending <= taken
      invariant forall j: nat :: j >= counter - 1 && Candidate(base, j) in taken ==> Candidate(base, j) in pending
      decreases pending
    {
      var tried := slug;
      forall j: nat | j >= counter && Candidate(base, j) in taken
        ensures Candidate(base, j) in pending - {tried}
      {
        if Candidate(base, j) == tried {
          CandidateInjective(base, j, counter - 1);
        }
      }
      pending := pending - {tried};
      slug := base + "-" + NatToString(counter);
      counter := counter + 1;
    }
    assert slug == Candidate(base, counter - 1);
  }

  /** The loop's answer is determined by the base and the used slugs. */
  lemma FirstFreeUnique(base: string, taken: set<string>, s1: string, s2: string)
    requires FirstFree(base, taken, s1) && FirstFree(base, taken, s2)
    ensures s1 == s2
  {
    var k1: nat :| s1 == Candidate(base, k1) && s1 !in taken &&
      forall j: nat :: j < k1 ==> Candidate(base, j) in taken;
    var k2: nat :| s2 == Candidate(base, k2) && s2 !in taken &&
      forall j: nat :: j < k2 ==> Candidate(base, j) in taken;
    // an earlier index on either side would be a used candidate
    assert k1 == k2;
  }

  /** The slugified title is kept as it is exactly when no other row uses it. */
  lemma FirstFreeIsBase(base: string, taken: set<string>)
    ensures FirstFree(base, taken, base) <==> base !in taken
  {
    if base !in taken {
      assert Candidate(base, 0) == base;
    }
  }

  /** A used base leads to a suffixed slug. */
  lemma FirstFreeSuffixed(base: string, taken: set<string>, slug: string)
    requires FirstFree(base, taken, slug) && base in taken
    ensures exists k: nat :: k >= 1 && slug == base + "-" + NatToString(k)
  {
    var k: nat :| slug == Candidate(base, k) && slug !in taken &&
      forall j: nat :: j < k ==> Candidate(base, j) in taken;
    assert k != 0;
  }
}
