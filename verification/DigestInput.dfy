/**
 The text that is hashed into a validated digest: id, decimal revision, two tree
 hashes, one hash per operation and a fixed suffix, written without separators.
 */
module DigestInput {

  const ID_WIDTH: nat := 35        // "cs_" and 32 hexadecimal digits
  const INPUT_WIDTH: nat := 64     // a SHA-256 in hexadecimal
  const SUFFIX: string := "default:v1"

  datatype Fields = Fields(id: string, revision: nat, before: string, after: string, inputs: seq<string>)

  function DigitChar(d: nat): (c: char)
    requires d < 10
  {
    "0123456789"[d]
  }

  /** str() of a natural number. */
  function Decimal(n: nat): (s: string)
    ensures s != []
  {
    if n < 10 then [DigitChar(n)] else Decimal(n / 10) + [DigitChar(n % 10)]
  }

  function Concat(parts: seq<string>): string {
    if parts == [] then [] else parts[0] + Concat(parts[1..])
  }

  function Text(f: Fields): string {
    f.id + Decimal(f.revision) + f.before + f.after + Concat(f.inputs) + SUFFIX
  }

  /** Fixed widths: tree hashes of one length for the repository, operation hashes of 64 characters. */
  ghost predicate WidthsOk(f: Fields, hash: nat) {
    && |f.id| == ID_WIDTH && |f.before| == hash && |f.after| == hash
    && forall i :: 0 <= i < |f.inputs| ==> |f.inputs[i]| == INPUT_WIDTH
  }

  function Power10(k: nat): nat {
    if k == 0 then 1 else 10 * Power10(k - 1)
  }

  lemma {:induction false} DecimalWidth(n: nat, k: nat)
    requires k > 0 && n < Power10(k)
    ensures |Decimal(n)| <= k
  {
    assert Power10(k) == 10 * Power10(k - 1);
    if n >= 10 {
      DecimalWidth(n / 10, k - 1);
    }
  }

  lemma {:induction false} DecimalInjective(m: nat, n: nat)
    requires Decimal(m) == Decimal(n)
    ensures m == n
  {
    var s := Decimal(m);
    if m >= 10 { LongDecimal(m); }
    if n >= 10 { LongDecimal(n); }
    if m < 10 && n < 10 {
      assert s[0] == DigitChar(m) == DigitChar(n);
    } else if m >= 10 && n >= 10 {
      var a, b := Decimal(m / 10), Decimal(n / 10);
      assert |a| == |b| == |s| - 1;
      assert a == s[..|s| - 1] == b;
      assert s[|s| - 1] == DigitChar(m % 10) == DigitChar(n % 10);
      DecimalInjective(m / 10, n / 10);
    }
  }

  lemma LongDecimal(n: nat)
    requires n >= 10
    ensures |Decimal(n)| >= 2
  {
  }

  lemma {:induction false} ConcatWidth(parts: seq<string>, width: nat)
    requires forall i :: 0 <= i < |parts| ==> |parts[i]| == width
    ensures |Concat(parts)| == width * |parts|
  {
    if parts != [] { ConcatWidth(parts[1..], width); }
  }

  lemma {:induction false} ConcatInjective(p: seq<string>, q: seq<string>, width: nat)
    requires forall i :: 0 <= i < |p| ==> |p[i]| == width
    requires forall i :: 0 <= i < |q| ==> |q[i]| == width
    requires |p| == |q| && Concat(p) == Concat(q)
    ensures p == q
  {
    if p != [] {
      CutEqual(p[0], Concat(p[1..]), q[0], Concat(q[1..]));
      ConcatInjective(p[1..], q[1..], width);
      assert p == [p[0]] + p[1..] && q == [q[0]] + q[1..];
    }
  }

  /** Equal texts with first parts of equal length have equal parts. */
  lemma CutEqual(a: string, b: string, c: string, d: string)
    requires a + b == c + d && |a| == |c|
    ensures a == c && b == d
  {
    assert a == (a + b)[..|a|] && c == (c + d)[..|c|];
    assert b == (a + b)[|a|..] && d == (c + d)[|c|..];
  }

  lemma TextWidth(f: Fields, hash: nat)
    requires WidthsOk(f, hash)
    ensures |Text(f)| == ID_WIDTH + |Decimal(f.revision)| + 2 * hash + INPUT_WIDTH * |f.inputs| + |SUFFIX|
  {
    ConcatWidth(f.inputs, INPUT_WIDTH);
  }

  /**
   The text determines every field: for revisions of at most 64 digits its length
   fixes the width of the revision, and with it every cut.
   */
  lemma TextDeterminesFields(f: Fields, g: Fields, hash: nat)
    requires WidthsOk(f, hash) && WidthsOk(g, hash)
    requires f.revision < Power10(64) && g.revision < Power10(64)
    requires Text(f) == Text(g)
    ensures f == g
  {
    TextWidth(f, hash);
    TextWidth(g, hash);
    DecimalWidth(f.revision, 64);
    DecimalWidth(g.revision, 64);
    assert |f.inputs| == |g.inputs| && |Decimal(f.revision)| == |Decimal(g.revision)|;
    SameCuts(f, g);
    DecimalInjective(f.revision, g.revision);
    ConcatInjective(f.inputs, g.inputs, INPUT_WIDTH);
  }

  lemma SameCuts(f: Fields, g: Fields)
    requires |f.id| == |g.id| && |f.before| == |g.before| && |f.after| == |g.after|
    requires |Decimal(f.revision)| == |Decimal(g.revision)|
    requires Text(f) == Text(g)
    ensures f.id == g.id && Decimal(f.revision) == Decimal(g.revision) && f.before == g.before && f.after == g.after
    ensures Concat(f.inputs) == Concat(g.inputs)
  {
    hide Concat, Decimal, Text;
    Grouped(f);
    Grouped(g);
    var a, b := Concat(f.inputs) + SUFFIX, Concat(g.inputs) + SUFFIX;
    CutEqual(f.id, Decimal(f.revision) + (f.before + (f.after + a)), g.id,
             Decimal(g.revision) + (g.before + (g.after + b)));
    CutEqual(Decimal(f.revision), f.before + (f.after + a), Decimal(g.revision), g.before + (g.after + b));
    CutEqual(f.before, f.after + a, g.before, g.after + b);
    CutEqual(f.after, a, g.after, b);
    CutEqual(Concat(f.inputs), SUFFIX, Concat(g.inputs), SUFFIX);
  }

  lemma Grouped(f: Fields)
    ensures Text(f) == f.id + (Decimal(f.revision) + (f.before + (f.after + (Concat(f.inputs) + SUFFIX))))
  {
    hide Concat, Decimal;
  }
}
