/** `generate_token_pair` (src/models.rs): a public token of 8 and a deletion
    token of 16 symbols, each drawn without replacement from a 62-symbol
    alphabet. The random source is a parameter: a sequence of draws. */
module Tokens {
  import Text

  /** The alphabet exactly as the source spells it (note `IKJ` and `ikj`),
      written as three runs. */
  const Upper: string := "ABCDEFGHIKJLMNOPQRSTUVWXYZ"
  const Lower: string := "abcdefghikjlmnopqrstuvwxyz"
  const Digits: string := "0123456789"
  const Alphabet: string := Upper + Lower + Digits

  const PublicTokenLength: nat := 8
  const DeletionTokenLength: nat := 16

  /** How many draws one token pair consumes. */
  const DrawsPerPair: nat := PublicTokenLength + DeletionTokenLength

  predicate IsAlphanumeric(c: char) { 'A' <= c <= 'Z' || 'a' <= c <= 'z' || '0' <= c <= '9' }

  predicate Distinct<T(==)>(s: seq<T>) { forall i, j :: 0 <= i < j < |s| ==> s[i] != s[j] }

  /** A well-formed token: `n` pairwise distinct ASCII letters and digits,
      that is, `n` distinct symbols of the alphabet (see `AlphabetFacts`). */
  predicate IsToken(t: string, n: nat)
  {
    && |t| == n
    && Distinct(t)
    && forall i :: 0 <= i < |t| ==> IsAlphanumeric(t[i])
  }

  /** The position each symbol has in the alphabet. */
  function Rank(c: char): int
  {
    if c == 'J' then 10 else if c == 'K' then 9
    else if c == 'j' then 36 else if c == 'k' then 35
    else if 'A' <= c <= 'Z' then c as int - 'A' as int
    else if 'a' <= c <= 'z' then c as int - 'a' as int + 26
    else c as int - '0' as int + 52
  }

  lemma UpperRanks()
    ensures forall i :: 0 <= i < |Upper| ==> Rank(Upper[i]) == i && 'A' <= Upper[i] <= 'Z'
    ensures forall c :: 'A' <= c <= 'Z' ==> 0 <= Rank(c) < |Upper| && Upper[Rank(c)] == c
  {
    forall i | 0 <= i < |Upper| ensures Rank(Upper[i]) == i && 'A' <= Upper[i] <= 'Z' {}
    forall c | 'A' <= c <= 'Z' ensures 0 <= Rank(c) < |Upper| && Upper[Rank(c)] == c {}
  }

  lemma LowerRanks()
    ensures forall i :: 0 <= i < |Lower| ==> Rank(Lower[i]) == i + 26 && 'a' <= Lower[i] <= 'z'
    ensures forall c :: 'a' <= c <= 'z' ==> 0 <= Rank(c) - 26 < |Lower| && Lower[Rank(c) - 26] == c
  {
    forall i | 0 <= i < |Lower| ensures Rank(Lower[i]) == i + 26 && 'a' <= Lower[i] <= 'z' {}
    forall c | 'a' <= c <= 'z' ensures 0 <= Rank(c) - 26 < |Lower| && Lower[Rank(c) - 26] == c {}
  }

  lemma DigitRanks()
    ensures forall i :: 0 <= i < |Digits| ==> Rank(Digits[i]) == i + 52 && '0' <= Digits[i] <= '9'
    ensures forall c :: '0' <= c <= '9' ==> 0 <= Rank(c) - 52 < |Digits| && Digits[Rank(c) - 52] == c
  {
    forall i | 0 <= i < |Digits| ensures Rank(Digits[i]) == i + 52 && '0' <= Digits[i] <= '9' {}
    forall c | '0' <= c <= '9' ensures 0 <= Rank(c) - 52 < |Digits| && Digits[Rank(c) - 52] == c {}
  }

  /** The alphabet has 62 pairwise distinct symbols, and they are exactly the
      ASCII letters and digits. */
  lemma AlphabetFacts()
    ensures |Alphabet| == 62
    ensures Distinct(Alphabet)
    ensures forall c :: c in Alphabet <==> IsAlphanumeric(c)
  {
    UpperRanks();
    LowerRanks();
    DigitRanks();
    assert forall i :: 0 <= i < |Alphabet| ==> Rank(Alphabet[i]) == i && IsAlphanumeric(Alphabet[i]);
    forall c | IsAlphanumeric(c) ensures c in Alphabet {
      assert Alphabet[Rank(c)] == c;
    }
  }

  /** The sequence without its element at position `k`. */
  function RemoveAt<T>(s: seq<T>, k: nat): (r: seq<T>)
    requires k < |s|
    ensures |r| == |s| - 1
    ensures forall i :: 0 <= i < k ==> r[i] == s[i]
    ensures forall i :: k <= i < |r| ==> r[i] == s[i + 1]
  {
    s[..k] + s[k + 1..]
  }

  /** Removing one element of a repetition-free sequence keeps it
      repetition-free and removes exactly that value. */
  lemma RemoveAtDistinct<T>(s: seq<T>, k: nat)
    requires k < |s|
    ensures Distinct(s) ==> Distinct(RemoveAt(s, k))
    ensures Distinct(s) ==> forall x :: x in RemoveAt(s, k) <==> x in s && x != s[k]
  {
    var r := RemoveAt(s, k);
    forall x | x in s && x != s[k] ensures x in r {
      var i :| 0 <= i < |s| && s[i] == x;
      if i < k { assert r[i] == x; } else { assert r[i - 1] == x; }
    }
  }

  lemma SmallMod(a: nat, n: nat)
    requires a < n
    ensures a % n == a
  {
  }

  function Min(a: nat, b: nat): nat { if a <= b then a else b }

  /** `SliceRandom::choose_multiple(rng, amount)`: up to `amount` elements at
      distinct positions of `pool`. Each draw picks one of the remaining
      elements and takes it out of the pool. */
  function ChooseMultiple<T(==)>(pool: seq<T>, amount: nat, draws: seq<nat>): (r: seq<T>)
    requires |draws| >= Min(amount, |pool|)
    ensures |r| == Min(amount, |pool|)
    ensures forall i :: 0 <= i < |r| ==> r[i] in pool
    ensures Distinct(pool) ==> Distinct(r)
    decreases amount
  {
    if amount == 0 || |pool| == 0 then []
    else
      var k := draws[0] % |pool|;
      var rest := ChooseMultiple(RemoveAt(pool, k), amount - 1, draws[1..]);
      RemoveAtDistinct(pool, k);
      [pool[k]] + rest
  }

  /** The draws under which `ChooseMultiple` yields exactly `target`. */
  ghost function DrawsFor<T>(pool: seq<T>, target: seq<T>): (d: seq<nat>)
    requires Distinct(pool)
    requires Distinct(target)
    requires forall i :: 0 <= i < |target| ==> target[i] in pool
    ensures |d| == |target|
    decreases |target|
  {
    if |target| == 0 then []
    else
      var k :| 0 <= k < |pool| && pool[k] == target[0];
      RemoveAtDistinct(pool, k);
      assert forall i :: 1 <= i < |target| ==> target[i] != target[0];
      [k] + DrawsFor(RemoveAt(pool, k), target[1..])
  }

  /** One draw of `ChooseMultiple` that is already an index into the pool. */
  lemma ChooseStep<T>(pool: seq<T>, amount: nat, draws: seq<nat>)
    requires 0 < amount && |draws| >= Min(amount, |pool|)
    requires |draws| > 0 && draws[0] < |pool|
    ensures ChooseMultiple(pool, amount, draws)
         == [pool[draws[0]]] + ChooseMultiple(RemoveAt(pool, draws[0]), amount - 1, draws[1..])
  {
    SmallMod(draws[0], |pool|);
  }

  /** How `DrawsFor` picks its first draw. */
  lemma DrawsForStep<T>(pool: seq<T>, target: seq<T>)
    requires Distinct(pool)
    requires Distinct(target)
    requires forall i :: 0 <= i < |target| ==> target[i] in pool
    requires |target| > 0
    ensures var d := DrawsFor(pool, target);
      && d[0] < |pool| && pool[d[0]] == target[0]
      && Distinct(RemoveAt(pool, d[0]))
      && Distinct(target[1..])
      && (forall i :: 0 <= i < |target[1..]| ==> target[1..][i] in RemoveAt(pool, d[0]))
      && d[1..] == DrawsFor(RemoveAt(pool, d[0]), target[1..])
  {
    var d := DrawsFor(pool, target);
    RemoveAtDistinct(pool, d[0]);
    assert forall i :: 1 <= i < |target| ==> target[i] != target[0];
  }

  /** Every repetition-free selection from a repetition-free pool is a
      possible outcome of `ChooseMultiple`: its postconditions describe the
      outcomes exactly. */
  lemma {:induction false} ChooseMultipleReaches<T>(pool: seq<T>, target: seq<T>)
    requires Distinct(pool)
    requires Distinct(target)
    requires forall i :: 0 <= i < |target| ==> target[i] in pool
    requires |target| <= |pool|
    ensures ChooseMultiple(pool, |target|, DrawsFor(pool, target)) == target
    decreases |target|
  {
    if |target| > 0 {
      var d := DrawsFor(pool, target);
      DrawsForStep(pool, target);
      var rest := RemoveAt(pool, d[0]);
      ChooseMultipleReaches(rest, target[1..]);
      ChooseStep(pool, |target|, d);
      assert target == [target[0]] + target[1..];
    }
  }

  /** `ChooseMultiple` of `n <= |pool|` symbols from a repetition-free pool is a
      repetition-free selection of exactly `n` of them. */
  lemma ChooseSelection<T>(pool: seq<T>, n: nat, draws: seq<nat>)
    requires Distinct(pool) && n <= |pool| && |draws| >= n
    ensures var r := ChooseMultiple(pool, n, draws);
      |r| == n && Distinct(r) && forall i :: 0 <= i < |r| ==> r[i] in pool
  {
  }

  /** Two selections from one pool, 8 and then 16 symbols long, from
      consecutive runs of draws. */
  function TokenPairFrom<T(==)>(pool: seq<T>, draws: seq<nat>): (seq<T>, seq<T>)
    requires |draws| >= DrawsPerPair
  {
    (ChooseMultiple(pool, PublicTokenLength, draws[..PublicTokenLength]),
     ChooseMultiple(pool, DeletionTokenLength, draws[PublicTokenLength..DrawsPerPair]))
  }

  /** `generate_token_pair`: the first `DrawsPerPair` draws are consumed,
      8 for the public token and 16 for the deletion token. */
  function GenerateTokenPair(draws: seq<nat>): (pair: (string, string))
    requires |draws| >= DrawsPerPair
    ensures IsToken(pair.0, PublicTokenLength)
    ensures IsToken(pair.1, DeletionTokenLength)
  {
    var pair := TokenPairFrom(Alphabet, draws);
    AlphabetSelections(draws);
    pair
  }

  /** Both selections from the alphabet are well-formed tokens. */
  lemma AlphabetSelections(draws: seq<nat>)
    requires |draws| >= DrawsPerPair
    ensures IsToken(TokenPairFrom(Alphabet, draws).0, PublicTokenLength)
    ensures IsToken(TokenPairFrom(Alphabet, draws).1, DeletionTokenLength)
  {
    AlphabetFacts();
    var dt := draws[..PublicTokenLength];
    var dd := draws[PublicTokenLength..DrawsPerPair];
    ChooseSelection(Alphabet, PublicTokenLength, dt);
    ChooseSelection(Alphabet, DeletionTokenLength, dd);
    SelectionIsToken(ChooseMultiple(Alphabet, PublicTokenLength, dt), PublicTokenLength);
    SelectionIsToken(ChooseMultiple(Alphabet, DeletionTokenLength, dd), DeletionTokenLength);
  }

  lemma SelectionIsToken(r: string, n: nat)
    requires |r| == n && Distinct(r) && forall i :: 0 <= i < |r| ==> r[i] in Alphabet
    ensures IsToken(r, n)
  {
    AlphabetFacts();
  }

  /** A well-formed token is ASCII text. */
  lemma TokenIsAscii(t: string, n: nat)
    requires IsToken(t, n)
    ensures Text.IsAscii(t)
  {
  }

  /** The pair's two runs of draws, given separately. */
  lemma TokenPairFromConcat<T>(pool: seq<T>, dt: seq<nat>, dd: seq<nat>)
    requires |dt| == PublicTokenLength && |dd| == DeletionTokenLength
    ensures TokenPairFrom(pool, dt + dd)
         == (ChooseMultiple(pool, PublicTokenLength, dt), ChooseMultiple(pool, DeletionTokenLength, dd))
  {
    var draws := dt + dd;
    assert draws[..PublicTokenLength] == dt;
    assert draws[PublicTokenLength..DrawsPerPair] == dd;
  }

  /** Any two repetition-free selections of 8 and 16 symbols of a
      repetition-free pool come out of `TokenPairFrom` for suitable draws. */
  lemma {:induction false} PairReachable<T>(pool: seq<T>, t: seq<T>, d: seq<T>)
    requires Distinct(pool) && DeletionTokenLength <= |pool|
    requires |t| == PublicTokenLength && Distinct(t) && forall i :: 0 <= i < |t| ==> t[i] in pool
    requires |d| == DeletionTokenLength && Distinct(d) && forall i :: 0 <= i < |d| ==> d[i] in pool
    ensures var draws := DrawsFor(pool, t) + DrawsFor(pool, d);
      |draws| == DrawsPerPair && TokenPairFrom(pool, draws) == (t, d)
  {
    var dt := DrawsFor(pool, t);
    var dd := DrawsFor(pool, d);
    ChooseMultipleReaches(pool, t);
    ChooseMultipleReaches(pool, d);
    TokenPairFromConcat(pool, dt, dd);
  }

  /** Conversely, every pair of well-formed tokens is a possible result of
      `GenerateTokenPair`. */
  lemma {:induction false} EveryTokenPairPossible(t: string, d: string)
    requires IsToken(t, PublicTokenLength)
    requires IsToken(d, DeletionTokenLength)
    ensures exists draws :: |draws| >= DrawsPerPair && GenerateTokenPair(draws) == (t, d)
  {
    AlphabetFacts();
    var draws := DrawsFor(Alphabet, t) + DrawsFor(Alphabet, d);
    PairReachable(Alphabet, t, d);
    assert GenerateTokenPair(draws) == (t, d);
  }
}
