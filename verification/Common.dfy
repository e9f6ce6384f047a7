/** Value types and text helpers shared by every component. */
module Common {

  newtype byte = x: int | 0 <= x < 256

  type Bytes = seq<byte>

  datatype Option<+T> = None | Some(value: T)

  /** `Err` stands for every error the source propagates with `?` or `bail!`. */
  datatype Result<+T> = Ok(value: T) | Err

  /** No element occurs twice. */
  ghost predicate Distinct<T>(s: seq<T>) {
    forall i, j :: 0 <= i < j < |s| ==> s[i] != s[j]
  }

  // ----- numbers as text ---------------------------------------------------------

  function Digit(d: nat): char
    requires d < 10
  {
    (48 + d) as char
  }

  /** A number as the formatter prints it. */
  function Decimal(n: nat): string {
    if n < 10 then [Digit(n)] else Decimal(n / 10) + [Digit(n % 10)]
  }

  lemma {:induction false} DecimalDigits(n: nat)
    ensures Decimal(n) != [] && (n >= 10 ==> |Decimal(n)| >= 2)
    ensures forall i :: 0 <= i < |Decimal(n)| ==> '0' <= Decimal(n)[i] <= '9'
  {
    if n >= 10 {
      DecimalDigits(n / 10);
    }
  }

  /** Different numbers print differently. */
  lemma {:induction false} DecimalInjective(a: nat, b: nat)
    requires Decimal(a) == Decimal(b)
    ensures a == b
  {
    DecimalDigits(a);
    DecimalDigits(b);
    var n := |Decimal(a)| - 1;
    assert Decimal(a)[n] == Digit(a % 10) && Decimal(b)[n] == Digit(b % 10);
    if a >= 10 {
      assert Decimal(a)[..n] == Decimal(a / 10) && Decimal(b)[..n] == Decimal(b / 10);
      DecimalInjective(a / 10, b / 10);
    }
  }

  // ----- texts fed piece by piece ---------------------------------------------------

  /** All pieces one after the other, without separators. */
  function Joined(pieces: seq<string>): string {
    if pieces == [] then "" else Joined(pieces[..|pieces| - 1]) + pieces[|pieces| - 1]
  }

  lemma JoinedSnoc(pieces: seq<string>, p: string)
    ensures Joined(pieces + [p]) == Joined(pieces) + p
  {
    assert (pieces + [p])[..|pieces|] == pieces;
  }

  lemma {:induction false} JoinedConcat(a: seq<string>, b: seq<string>)
    ensures Joined(a + b) == Joined(a) + Joined(b)
  {
    if b == [] {
      assert a + b == a;
    } else {
      var init, last := b[..|b| - 1], b[|b| - 1];
      assert a + b == (a + init) + [last];
      JoinedSnoc(a + init, last);
      JoinedConcat(a, init);
    }
  }

  /** Equal front and back leave equal middles. */
  lemma MiddleCancels(front: string, x: string, y: string, back: string)
    requires front + x + back == front + y + back
    ensures x == y
  {
    var s := front + x + back;
    assert |x| == |y|;
    assert x == s[|front|..|front| + |x|] && y == s[|front|..|front| + |x|];
  }

  lemma JoinedAround(pieces: seq<string>, i: nat, x: string)
    requires i < |pieces|
    ensures Joined(pieces[i := x]) == Joined(pieces[..i]) + x + Joined(pieces[i + 1..])
  {
    assert pieces[i := x] == (pieces[..i] + [x]) + pieces[i + 1..];
    JoinedConcat(pieces[..i] + [x], pieces[i + 1..]);
    JoinedSnoc(pieces[..i], x);
  }

  /** Exchanging one piece for another changes the text exactly when the pieces differ. */
  lemma OnePieceCounts(pieces: seq<string>, i: nat, x: string, y: string)
    requires i < |pieces|
    ensures Joined(pieces[i := x]) == Joined(pieces[i := y]) <==> x == y
  {
    JoinedAround(pieces, i, x);
    JoinedAround(pieces, i, y);
    if Joined(pieces[i := x]) == Joined(pieces[i := y]) {
      MiddleCancels(Joined(pieces[..i]), x, y, Joined(pieces[i + 1..]));
    }
  }

  ghost predicate SameLengths(a: seq<string>, b: seq<string>) {
    |a| == |b| && forall i :: 0 <= i < |a| ==> |a[i]| == |b[i]|
  }

  lemma SplitsAt(a: string, x: string, b: string, y: string)
    requires a + x == b + y && |x| == |y|
    ensures a == b && x == y
  {
    assert a == (a + x)[..|a|] && b == (b + y)[..|a|];
    assert x == (a + x)[|a|..] && y == (b + y)[|a|..];
  }

  /** The text pins the pieces exactly up to where they end: lists are equal if and only if texts and lengths are. */
  lemma {:induction false} JoinedPinsIff(a: seq<string>, b: seq<string>)
    ensures a == b <==> Joined(a) == Joined(b) && SameLengths(a, b)
  {
    if Joined(a) == Joined(b) && SameLengths(a, b) && a != [] {
      var n := |a| - 1;
      SplitsAt(Joined(a[..n]), a[n], Joined(b[..n]), b[n]);
      JoinedPinsIff(a[..n], b[..n]);
      assert a == a[..n] + [a[n]] && b == b[..n] + [b[n]];
    }
  }

  /** Characters may move across the boundary of two neighbouring pieces. */
  lemma BoundariesDoNotCount(pieces: seq<string>, i: nat, u: string, moved: string, w: string)
    requires i + 1 < |pieces|
    ensures Joined(pieces[i := u + moved][i + 1 := w]) == Joined(pieces[i := u][i + 1 := moved + w])
  {
    var front, back := pieces[..i], pieces[i + 2..];
    assert pieces[i := u + moved][i + 1 := w] == (front + [u + moved] + [w]) + back;
    assert pieces[i := u][i + 1 := moved + w] == (front + [u] + [moved + w]) + back;
    JoinedConcat(front + [u + moved] + [w], back);
    JoinedConcat(front + [u] + [moved + w], back);
    JoinedSnoc(front + [u + moved], w);
    JoinedSnoc(front, u + moved);
    JoinedSnoc(front + [u], moved + w);
    JoinedSnoc(front, u);
    assert Joined(front) + (u + moved) + w == Joined(front) + u + (moved + w);
  }
}
