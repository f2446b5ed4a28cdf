/** The password `UserServiceImpl.generateRandomPassword` hands to a new user: one
    character of each class, four more from the whole alphabet, then a swap shuffle.
    The results of `SecureRandom.nextInt` are inputs, in call order. */
module Password {

  const Lower: string := "abcdefghijklmnopqrstuvwxyz"
  const Upper: string := "ABCDEFGHIJKLMNOPQRSTUVWXYZ"
  const Digits: string := "0123456789"
  const Special: string := "!@#$%^&*()-_=+[]{}|;:',.<>/?"
  const PasswordChars: string := Lower + Upper + Digits + Special

  /** The generated length. */
  const Length: nat := 8

  /** The sixteen random draws: one index into each class, four into the whole
      alphabet, and one swap partner per position. */
  datatype Draws = Draws(lower: nat, upper: nat, digit: nat, special: nat, fill: seq<nat>, swaps: seq<nat>)

  /** `nextInt(n)` returns a value in [0, n). */
  predicate InBounds(d: Draws) {
    && d.lower < |Lower| && d.upper < |Upper| && d.digit < |Digits| && d.special < |Special|
    && |d.fill| == Length - 4
    && (forall k :: 0 <= k < |d.fill| ==> d.fill[k] < |PasswordChars|)
    && |d.swaps| == Length
    && (forall k :: 0 <= k < |d.swaps| ==> d.swaps[k] < Length)
  }

  /** Some character of `s` belongs to the class `chars`. */
  predicate HasOneOf(s: string, chars: string) {
    exists k :: 0 <= k < |s| && s[k] in chars
  }

  /** The password before the shuffle: the four class characters, then the fill. */
  function Picked(d: Draws): (r: string)
    requires InBounds(d)
    ensures |r| == Length
  {
    PickFrom(Lower, Upper, Digits, Special, PasswordChars, d)
  }

  /** The picking rule over any four classes and alphabet. */
  function PickFrom(lower: string, upper: string, digits: string, special: string, all: string, d: Draws): string
    requires d.lower < |lower| && d.upper < |upper| && d.digit < |digits| && d.special < |special|
    requires |d.fill| == 4 && forall k :: 0 <= k < 4 ==> d.fill[k] < |all|
  {
    [lower[d.lower], upper[d.upper], digits[d.digit], special[d.special],
     all[d.fill[0]], all[d.fill[1]], all[d.fill[2]], all[d.fill[3]]]
  }

  /** When the alphabet is the four classes laid end to end, the picked characters are
      one of each class, in class order, and then four more, all from the alphabet. */
  lemma PickFromClasses(lower: string, upper: string, digits: string, special: string, all: string, d: Draws)
    requires d.lower < |lower| && d.upper < |upper| && d.digit < |digits| && d.special < |special|
    requires |d.fill| == 4 && forall k :: 0 <= k < 4 ==> d.fill[k] < |all|
    requires all == lower + upper + digits + special
    ensures var r := PickFrom(lower, upper, digits, special, all, d);
      && r[0] in lower && r[1] in upper && r[2] in digits && r[3] in special
      && forall k :: 0 <= k < |r| ==> r[k] in all
  {
    var r := PickFrom(lower, upper, digits, special, all, d);
    assert all[d.lower] == r[0];
    assert all[|lower| + d.upper] == r[1];
    assert all[|lower| + |upper| + d.digit] == r[2];
    assert all[|lower| + |upper| + |digits| + d.special] == r[3];
  }

  /** The picked characters: the first four are one of each class, in class order, and
      all eight are from the alphabet. */
  lemma PickedClasses(d: Draws)
    requires InBounds(d)
    ensures var r := Picked(d);
      && r[0] in Lower && r[1] in Upper && r[2] in Digits && r[3] in Special
      && forall k :: 0 <= k < |r| ==> r[k] in PasswordChars
  {
    PickFromClasses(Lower, Upper, Digits, Special, PasswordChars, d);
  }

  /** Exchanging the characters at `i` and `j` (the same position is allowed). */
  function Swap(s: string, i: nat, j: nat): (r: string)
    requires i < |s| && j < |s|
    ensures |r| == |s|
  {
    seq(|s|, k requires 0 <= k < |s| => if k == j then s[i] else if k == i then s[j] else s[k])
  }

  /** The three assignments of the loop body (`tmp = a[i]; a[i] = a[j]; a[j] = tmp`)
      perform the swap. */
  lemma SwapByAssignments(s: string, i: nat, j: nat)
    requires i < |s| && j < |s|
    ensures s[i := s[j]][j := s[i]] == Swap(s, i, j)
  {
  }

  /** A swap only rearranges: the same characters, each as often. */
  lemma SwapPermutes(s: string, i: nat, j: nat)
    requires i < |s| && j < |s|
    ensures multiset(Swap(s, i, j)) == multiset(s)
  {
    SwapByAssignments(s, i, j);
  }

  /** The buffer after the first `n` turns of the shuffle loop: turn `i` swaps position
      `i` with its drawn partner. */
  function Shuffled(s: string, swaps: seq<nat>, n: nat): (r: string)
    requires n <= |s| && |swaps| == |s|
    requires forall k :: 0 <= k < |swaps| ==> swaps[k] < |s|
    ensures |r| == |s|
  {
    if n == 0 then s else Swap(Shuffled(s, swaps, n - 1), n - 1, swaps[n - 1])
  }

  /** One more turn keeps the characters the buffer had. */
  lemma TurnPermutes(s: string, swaps: seq<nat>, n: nat)
    requires 0 < n <= |s| && |swaps| == |s|
    requires forall k :: 0 <= k < |swaps| ==> swaps[k] < |s|
    ensures multiset(Shuffled(s, swaps, n)) == multiset(Shuffled(s, swaps, n - 1))
  {
    SwapPermutes(Shuffled(s, swaps, n - 1), n - 1, swaps[n - 1]);
  }

  /** Any number of turns only rearranges the buffer. */
  lemma {:induction false} ShuffledPermutes(s: string, swaps: seq<nat>, n: nat)
    requires n <= |s| && |swaps| == |s|
    requires forall k :: 0 <= k < |swaps| ==> swaps[k] < |s|
    ensures multiset(Shuffled(s, swaps, n)) == multiset(s)
  {
    if n > 0 {
      ShuffledPermutes(s, swaps, n - 1);
      TurnPermutes(s, swaps, n);
    }
  }

  /** A rearrangement of a string keeps each class the string has. */
  lemma PermutationKeepsClasses(s: string, p: string, chars: string)
    requires multiset(s) == multiset(p)
    requires HasOneOf(s, chars)
    ensures HasOneOf(p, chars)
  {
    var k :| 0 <= k < |s| && s[k] in chars;
    assert s[k] in multiset(p);
    var j :| 0 <= j < |p| && p[j] == s[k];
  }

  /** What the shuffle of a picked password keeps: eight characters, all from the
      alphabet, with every class present. */
  lemma ShuffledClasses(d: Draws)
    requires InBounds(d)
    ensures var p := Shuffled(Picked(d), d.swaps, Length);
      && |p| == Length
      && (forall k :: 0 <= k < |p| ==> p[k] in PasswordChars)
      && HasOneOf(p, Lower) && HasOneOf(p, Upper) && HasOneOf(p, Digits) && HasOneOf(p, Special)
  {
    var picked := Picked(d);
    var p := Shuffled(picked, d.swaps, Length);
    PickedClasses(d);
    ShuffledPermutes(picked, d.swaps, Length);
    assert HasOneOf(picked, Lower) by { assert picked[0] in Lower; }
    assert HasOneOf(picked, Upper) by { assert picked[1] in Upper; }
    assert HasOneOf(picked, Digits) by { assert picked[2] in Digits; }
    assert HasOneOf(picked, Special) by { assert picked[3] in Special; }
    PermutationKeepsClasses(picked, p, Lower);
    PermutationKeepsClasses(picked, p, Upper);
    PermutationKeepsClasses(picked, p, Digits);
    PermutationKeepsClasses(picked, p, Special);
    forall k | 0 <= k < |p| ensures p[k] in PasswordChars {
      assert p[k] in multiset(picked);
    }
  }

  /** The swap loop of `generateRandomPassword` on its character buffer: position `i` is
      exchanged with its drawn partner, for `i` from the first position to the last. */
  method ShuffleInPlace(a: array<char>, swaps: seq<nat>)
    requires |swaps| == a.Length
    requires forall k :: 0 <= k < |swaps| ==> swaps[k] < a.Length
    modifies a
    ensures a[..] == Shuffled(old(a[..]), swaps, a.Length)
    ensures multiset(a[..]) == multiset(old(a[..]))
  {
    ghost var s := a[..];
    var i := 0;
    while i < a.Length
      invariant 0 <= i <= a.Length
      invariant a[..] == Shuffled(s, swaps, i)
      invariant multiset(a[..]) == multiset(s)
    {
      var partner := swaps[i];
      ghost var before := a[..];
      var t := a[i];
      a[i] := a[partner];
      a[partner] := t;
      assert a[..] == before[i := before[partner]][partner := before[i]];
      SwapByAssignments(before, i, partner);
      SwapPermutes(before, i, partner);
      i := i + 1;
    }
  }

  /** `generateRandomPassword`: the picked characters are written into a buffer that is
      shuffled in place, so the result is a rearrangement of them; eight characters, all
      from the alphabet, with a lower-case letter, an upper-case letter, a digit and a
      special character wherever the shuffle moved them. */
  method GeneratePassword(d: Draws) returns (p: string)
    requires InBounds(d)
    ensures p == Shuffled(Picked(d), d.swaps, Length)
    ensures multiset(p) == multiset(Picked(d))
    ensures |p| == Length
    ensures forall k :: 0 <= k < |p| ==> p[k] in PasswordChars
    ensures HasOneOf(p, Lower) && HasOneOf(p, Upper) && HasOneOf(p, Digits) && HasOneOf(p, Special)
  {
    var picked := Picked(d);
    var a := new char[Length](k requires 0 <= k < Length => picked[k]);
    assert a[..] == picked;
    ShuffleInPlace(a, d.swaps);
    p := a[..];
    ShuffledClasses(d);
  }
}
