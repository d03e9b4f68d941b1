/** Tree identifiers such as "0.2.10": lists of numbers printed with dots,
    split again, and ordered as plain text. */
module TreeIds {

  type Path = seq<nat>

  // ---- numbers -------------------------------------------------------------

  function DigitChar(d: nat): (c: char)
    requires d < 10
    ensures '0' <= c <= '9'
  {
    (48 + d) as char
  }

  /** `str` of a number. */
  function Digits(n: nat): (s: string)
    ensures |s| > 0 && forall i :: 0 <= i < |s| ==> '0' <= s[i] <= '9'
  {
    if n < 10 then [DigitChar(n)] else Digits(n / 10) + [DigitChar(n % 10)]
  }

  predicate AllDigits(s: string) {
    forall i :: 0 <= i < |s| ==> '0' <= s[i] <= '9'
  }

  /** `int` of a string of digits. */
  function ParseNat(s: string): nat
    requires AllDigits(s)
  {
    if s == [] then 0 else 10 * ParseNat(s[..|s| - 1]) + (s[|s| - 1] as int - 48)
  }

  lemma {:induction false} ParseDigits(n: nat)
    ensures ParseNat(Digits(n)) == n
  {
    var s := Digits(n);
    if n >= 10 {
      ParseDigits(n / 10);
      assert s[..|s| - 1] == Digits(n / 10);
    } else {
      assert s[..|s| - 1] == [];
    }
  }

  /** The decimal notation, without leading zeros. */
  lemma {:induction false} DigitsAreDecimal(n: nat)
    ensures n < 10 ==> Digits(n) == ["0123456789"[n]]
    ensures n >= 10 ==> Digits(n) == Digits(n / 10) + ["0123456789"[n % 10]]
    ensures Digits(n)[0] == '0' ==> n == 0
  {
    if n >= 10 {
      DigitsAreDecimal(n / 10);
    }
  }

  // ---- joining and splitting -------------------------------------------------

  /** `'.'.join(map(str, path))`. */
  function Join(p: Path): string {
    if p == [] then ""
    else if |p| == 1 then Digits(p[0])
    else Digits(p[0]) + "." + Join(p[1..])
  }

  function UpToDot(s: string): (w: string)
    ensures w <= s && '.' !in w && (|w| < |s| ==> s[|w|] == '.')
  {
    if s == [] || s[0] == '.' then [] else [s[0]] + UpToDot(s[1..])
  }

  /** `s.split('.')`. */
  function Split(s: string): (ws: seq<string>)
    ensures |ws| > 0
    decreases |s|
  {
    var w := UpToDot(s);
    if |w| == |s| then [w] else [w] + Split(s[|w| + 1..])
  }

  function JoinWords(ws: seq<string>): string
    requires ws != []
  {
    if |ws| == 1 then ws[0] else ws[0] + "." + JoinWords(ws[1..])
  }

  /** Whatever the text, joining its parts with dots gives it back, and no part
      has a dot. */
  lemma {:induction false} SplitMeans(s: string)
    ensures JoinWords(Split(s)) == s && forall i :: 0 <= i < |Split(s)| ==> '.' !in Split(s)[i]
    decreases |s|
  {
    var w := UpToDot(s);
    if |w| < |s| {
      SplitMeans(s[|w| + 1..]);
      assert Split(s)[1..] == Split(s[|w| + 1..]);
      assert s == w + "." + s[|w| + 1..];
    }
  }

  function Words(p: Path): (ws: seq<string>)
    ensures |ws| == |p| && forall i :: 0 <= i < |p| ==> ws[i] == Digits(p[i])
  {
    seq(|p|, i requires 0 <= i < |p| => Digits(p[i]))
  }

  lemma {:induction false} UpToDotOf(w: string, rest: string)
    requires '.' !in w
    ensures UpToDot(w) == w && UpToDot(w + "." + rest) == w
  {
    if w != [] {
      var s := w + "." + rest;
      assert s[0] == w[0] && s[1..] == w[1..] + "." + rest;
      UpToDotOf(w[1..], rest);
    }
  }

  lemma SplitFirst(w: string, rest: string)
    requires '.' !in w
    ensures Split(w + "." + rest) == [w] + Split(rest)
  {
    UpToDotOf(w, rest);
    assert (w + "." + rest)[|w| + 1..] == rest;
  }

  lemma WordsStep(p: Path)
    requires p != []
    ensures Words(p) == [Digits(p[0])] + Words(p[1..])
  {
  }

  /** Splitting undoes printing. */
  lemma {:induction false} SplitJoin(p: Path)
    requires p != []
    ensures Split(Join(p)) == Words(p)
  {
    WordsStep(p);
    if |p| > 1 {
      SplitJoin(p[1..]);
      SplitFirst(Digits(p[0]), Join(p[1..]));
    } else {
      UpToDotOf(Digits(p[0]), "");
      assert Words(p[1..]) == [];
    }
  }

  /** Each component reads back as its number. */
  lemma ParseSplitJoin(p: Path, i: nat)
    requires i < |p|
    ensures |Split(Join(p))| == |p| && AllDigits(Split(Join(p))[i]) && ParseNat(Split(Join(p))[i]) == p[i]
  {
    SplitJoin(p);
    ParseDigits(p[i]);
  }

  /** The path a text is the print of, if it is one. */
  function PathOf(s: string): (p: Path)
    ensures p != []
  {
    var ws := Split(s);
    seq(|ws|, i requires 0 <= i < |ws| => if AllDigits(ws[i]) then ParseNat(ws[i]) else 0)
  }

  lemma PathOfJoin(p: Path)
    requires p != []
    ensures PathOf(Join(p)) == p
  {
    SplitJoin(p);
    forall i | 0 <= i < |p| ensures PathOf(Join(p))[i] == p[i] {
      ParseSplitJoin(p, i);
    }
  }

  /** Printing is injective. */
  lemma JoinInjective(p: Path, q: Path)
    requires p != [] && q != [] && Join(p) == Join(q)
    ensures p == q
  {
    PathOfJoin(p);
    PathOfJoin(q);
  }

  // ---- text order ---------------------------------------------------------------

  /** The order of strings: by the first character that differs, a prefix first. */
  predicate Less(a: string, b: string) {
    b != [] && (a == [] || a[0] < b[0] || (a[0] == b[0] && Less(a[1..], b[1..])))
  }

  /** The first characters to differ, and the smaller one is in `a`. */
  predicate FallsBelowAt(a: string, b: string, k: nat) {
    k < |a| && k < |b| && a[k] < b[k] && forall i :: 0 <= i < k ==> a[i] == b[i]
  }

  lemma FallsBelowNext(a: string, b: string, k: nat)
    requires a != [] && b != [] && a[0] == b[0]
    ensures FallsBelowAt(a, b, k + 1) <==> FallsBelowAt(a[1..], b[1..], k)
  {
    if FallsBelowAt(a, b, k + 1) {
      forall i | 0 <= i < k ensures a[1..][i] == b[1..][i] {
        assert a[i + 1] == b[i + 1];
      }
    }
    if FallsBelowAt(a[1..], b[1..], k) {
      forall i | 0 < i < k + 1 ensures a[i] == b[i] {
        assert a[1..][i - 1] == b[1..][i - 1];
      }
    }
  }

  /** Either the one is where the other begins, or the first characters that
      differ decide. */
  lemma {:induction false} LessIff(a: string, b: string)
    ensures Less(a, b) <==> a < b || exists k: nat :: FallsBelowAt(a, b, k)
  {
    if a != [] && b != [] {
      assert a == [a[0]] + a[1..] && b == [b[0]] + b[1..];
      if a[0] < b[0] {
        assert FallsBelowAt(a, b, 0);
      } else if a[0] == b[0] {
        LessIff(a[1..], b[1..]);
        if k: nat :| FallsBelowAt(a[1..], b[1..], k) {
          FallsBelowNext(a, b, k);
        }
        if k: nat :| FallsBelowAt(a, b, k) {
          FallsBelowNext(a, b, k - 1);
        }
      }
    }
  }

  lemma {:induction false} LessIrreflexive(a: string)
    ensures !Less(a, a)
  {
    if a != [] {
      LessIrreflexive(a[1..]);
    }
  }

  lemma {:induction false} LessTransitive(a: string, b: string, c: string)
    requires Less(a, b) && Less(b, c)
    ensures Less(a, c)
  {
    if a != [] && a[0] == b[0] == c[0] {
      LessTransitive(a[1..], b[1..], c[1..]);
    }
  }

  lemma {:induction false} LessTotal(a: string, b: string)
    ensures a == b || Less(a, b) || Less(b, a)
  {
    if a != [] && b != [] && a[0] == b[0] {
      LessTotal(a[1..], b[1..]);
      assert a == [a[0]] + a[1..] && b == [b[0]] + b[1..];
    }
  }

  /** Made of dots and digits only. */
  predicate IdText(s: string) {
    forall i :: 0 <= i < |s| ==> s[i] == '.' || '0' <= s[i] <= '9'
  }

  lemma {:induction false} JoinIsIdText(p: Path)
    ensures IdText(Join(p))
  {
    if |p| > 1 {
      JoinIsIdText(p[1..]);
    }
  }

  lemma {:induction false} PrefixIsLess(a: string, b: string)
    requires a < b
    ensures Less(a, b)
  {
    if a != [] {
      PrefixIsLess(a[1..], b[1..]);
    }
  }

  /** Because a dot comes before every digit, whatever lies between an id and
      something below it also lies below it. */
  lemma {:induction false} BetweenIsBelow(p: string, s: string, d: string)
    requires IdText(s) && p + "." <= d
    requires Less(p, s) && Less(s, d)
    ensures p + "." <= s
  {
    if p == [] {
      assert s[0] == '.';
    } else {
      assert d[0] == p[0] == s[0];
      assert p[1..] + "." <= d[1..];
      BetweenIsBelow(p[1..], s[1..], d[1..]);
      assert s == [s[0]] + s[1..];
    }
  }

  lemma {:induction false} DotFreePrefix(a: string, x: string, b: string, y: string)
    requires '.' !in a && '.' !in b
    requires a + "." + x <= b + "." + y
    ensures a == b && x <= y
  {
    if a == [] {
      assert (b + "." + y)[0] == '.';
    } else {
      var l, r := a + "." + x, b + "." + y;
      assert l[0] == r[0];
      assert l[1..] == a[1..] + "." + x && r[1..] == b[1..] + "." + y;
      DotFreePrefix(a[1..], x, b[1..], y);
    }
  }

  lemma {:induction false} NoDotNoPrefix(a: string, x: string, b: string)
    requires '.' !in b
    ensures !(a + "." + x <= b)
  {
    assert (a + "." + x)[|a|] == '.';
  }

  /** Comparing the first numbers of two longer paths. */
  lemma FirstNumbers(n: nat, x: string, m: nat, y: string)
    ensures Digits(n) + "." + x <= Digits(m) + "." + y <==> n == m && x <= y
  {
    var a, b := Digits(n), Digits(m);
    if a + "." + x <= b + "." + y {
      DotFreePrefix(a, x, b, y);
      ParseDigits(n);
      ParseDigits(m);
    }
  }

  /** One path lies below another exactly when its text starts with the other's
      text and a dot. */
  lemma {:induction false} BelowIffText(p: Path, d: Path)
    requires p != [] && d != []
    ensures p < d <==> Join(p) + "." <= Join(d)
  {
    var a := Digits(p[0]);
    var x := if |p| == 1 then "" else Join(p[1..]) + ".";
    assert Join(p) + "." == a + "." + x;
    if |d| == 1 {
      NoDotNoPrefix(a, x, Digits(d[0]));
    } else {
      FirstNumbers(p[0], x, d[0], Join(d[1..]));
      assert p < d <==> p[0] == d[0] && p[1..] < d[1..] by {
        assert p == [p[0]] + p[1..] && d == [d[0]] + d[1..];
      }
      if |p| > 1 {
        BelowIffText(p[1..], d[1..]);
      }
    }
  }
}
