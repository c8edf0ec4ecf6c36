/** The names under which windows are spooled (internal/spool/spool.go). */
module FileNames {
  import opened Clock
  import opened ByteOrder

  const EXTENSION: string := ".json"

  function Pow10(n: nat): (p: nat)
    ensures p >= 1
  {
    if n == 0 then 1 else 10 * Pow10(n - 1)
  }

  function DigitChar(d: nat): char
    requires d < 10
  {
    '0' + d as char
  }

  /** The decimal digits of a number. */
  function Digits(n: nat): (s: string)
    ensures s != "" && forall c | c in s :: '0' <= c <= '9'
  {
    if n < 10 then [DigitChar(n)] else Digits(n / 10) + [DigitChar(n % 10)]
  }

  function Zeros(n: nat): (s: string)
    ensures |s| == n
  {
    if n == 0 then "" else Zeros(n - 1) + "0"
  }

  function Padded(s: string, width: nat): string {
    if |s| >= width then s else Zeros(width - |s|) + s
  }

  /** `%0<width>d`: the number filled up with zeros to the width, the sign counted in. */
  function FormatInt(v: int, width: nat): string {
    if v < 0 then "-" + Padded(Digits(-v), if width == 0 then 0 else width - 1) else Padded(Digits(v), width)
  }

  /** The name of a window that starts `nanos` after the Unix epoch, written with sequence number `seqNo`. */
  function Name(nanos: int64, seqNo: uint32): string {
    FormatInt(nanos, 20) + "-" + FormatInt(seqNo, 6) + EXTENSION
  }

  /** `filepath.Ext`: the suffix that begins at the last dot. */
  function Ext(name: string): string {
    if name == "" then ""
    else if name[|name| - 1] == '.' then "."
    else
      var front := Ext(name[..|name| - 1]);
      if front == "" then "" else front + [name[|name| - 1]]
  }

  /** A spooled window, as opposed to a temporary file. */
  predicate IsWindowFile(name: string) {
    Ext(name) == EXTENSION
  }

  /** `os.CreateTemp` with the pattern "tmp-*": the star is replaced by a random number. */
  function TempName(token: nat): string {
    "tmp-" + Digits(token)
  }

  /** The number `os.CreateTemp` settles on: it tries again as long as the name is taken. */
  function FreshToken(used: set<string>, token: nat): (t: nat)
    ensures t >= token && TempName(t) !in used
    decreases |used|
  {
    if TempName(token) !in used then token
    else
      var t := FreshToken(used - {TempName(token)}, token + 1);
      TempNamesInjective(t, token);
      t
  }

  lemma TempNamesInjective(t: nat, u: nat)
    ensures TempName(t) == TempName(u) ==> t == u
  {
    if TempName(t) == TempName(u) {
      assert TempName(t)[4..] == Digits(t) && TempName(u)[4..] == Digits(u);
      DigitsInjective(t, u);
    }
  }

  lemma {:induction false} DigitsInjective(t: nat, u: nat)
    requires Digits(t) == Digits(u)
    ensures t == u
  {
    var s := Digits(t);
    LastDigit(t);
    LastDigit(u);
    if t >= 10 && u >= 10 {
      DigitsInjective(t / 10, u / 10);
    }
  }

  lemma LastDigit(n: nat)
    ensures var s := Digits(n);
      && s[|s| - 1] == DigitChar(n % 10)
      && (n >= 10 ==> s[..|s| - 1] == Digits(n / 10))
      && (n < 10 ==> |s| == 1)
      && (n >= 10 ==> |s| > 1)
  {
  }

  // ----- Extensions -----

  lemma {:induction false} ExtWithoutDot(s: string)
    requires '.' !in s
    ensures Ext(s) == ""
  {
    if s != "" {
      assert s[|s| - 1] in s;
      ExtWithoutDot(s[..|s| - 1]);
    }
  }

  lemma ExtOfExtension(s: string)
    ensures Ext(s + EXTENSION) == EXTENSION
  {
    hide Ext;
    var s1 := s + ['.'];
    var s2 := s1 + ['j'];
    var s3 := s2 + ['s'];
    var s4 := s3 + ['o'];
    ExtAppend(s, '.');
    ExtAppend(s1, 'j');
    ExtAppend(s2, 's');
    ExtAppend(s3, 'o');
    ExtAppend(s4, 'n');
    assert s + EXTENSION == s4 + ['n'];
  }

  lemma ExtAppend(s: string, c: char)
    ensures Ext(s + [c]) == if c == '.' then "." else if Ext(s) == "" then "" else Ext(s) + [c]
  {
    assert (s + [c])[..|s|] == s;
  }

  /** A window file is any whose name ends in ".json". */
  lemma WindowFileIff(name: string)
    ensures IsWindowFile(name) <==> |name| >= 5 && name[|name| - 5..] == ".json"
  {
    if |name| >= 5 && name[|name| - 5..] == ".json" {
      ExtOfExtension(name[..|name| - 5]);
      assert name == name[..|name| - 5] + EXTENSION;
    } else if IsWindowFile(name) {
      ExtIsSuffix(name);
    }
  }

  lemma {:induction false} ExtIsSuffix(name: string)
    ensures |Ext(name)| <= |name| && name[|name| - |Ext(name)|..] == Ext(name)
  {
    if name != "" && name[|name| - 1] != '.' {
      var front := name[..|name| - 1];
      ExtIsSuffix(front);
      if Ext(front) != "" {
        assert name[|name| - |Ext(name)|..] == front[|front| - |Ext(front)|..] + [name[|name| - 1]];
      }
    }
  }

  /** Every name the spool gives a window is a window file, and no temporary name is. */
  lemma NamesAreWindowFiles(nanos: int64, seqNo: uint32)
    ensures IsWindowFile(Name(nanos, seqNo))
  {
    ExtOfExtension(FormatInt(nanos, 20) + "-" + FormatInt(seqNo, 6));
  }

  lemma TempNamesAreNot(token: nat)
    ensures !IsWindowFile(TempName(token))
  {
    ExtWithoutDot(TempName(token));
  }

  // ----- What a name spells -----

  predicate AllDigits(s: string) {
    forall i | 0 <= i < |s| :: '0' <= s[i] <= '9'
  }

  /** The number a string of digits spells. */
  function Spelled(s: string): nat
    requires AllDigits(s)
  {
    if s == "" then 0 else 10 * Spelled(s[..|s| - 1]) + (s[|s| - 1] as int - '0' as int)
  }

  lemma {:induction false} DigitsSpell(n: nat)
    ensures AllDigits(Digits(n)) && Spelled(Digits(n)) == n
    ensures Digits(n)[0] == '0' ==> n == 0
  {
    LastDigit(n);
    var s := Digits(n);
    if n >= 10 {
      DigitsSpell(n / 10);
      assert s[..|s| - 1] == Digits(n / 10);
    } else {
      assert s[..|s| - 1] == "" && Spelled("") == 0;
    }
  }

  lemma {:induction false} ZerosSpell(k: nat, s: string)
    requires AllDigits(s)
    ensures AllDigits(Zeros(k) + s) && Spelled(Zeros(k) + s) == Spelled(s)
  {
    if k == 0 {
      assert Zeros(0) + s == s;
    } else {
      ZerosSpell(k - 1, "0" + s);
      assert Zeros(k) + s == Zeros(k - 1) + ("0" + s);
      LeadingZero(s);
    }
  }

  lemma {:induction false} LeadingZero(s: string)
    requires AllDigits(s)
    ensures AllDigits("0" + s) && Spelled("0" + s) == Spelled(s)
  {
    if s == "" {
      assert ("0" + s)[..0] == "";
    } else {
      LeadingZero(s[..|s| - 1]);
      assert ("0" + s)[..|s|] == "0" + s[..|s| - 1];
    }
  }

  /** A padded number is as wide as asked for, or just as wide as it needs, and spells the number. */
  lemma PaddedSpells(n: nat, width: nat)
    ensures var s := Padded(Digits(n), width);
      AllDigits(s) && Spelled(s) == n && |s| >= width && (|s| > width ==> s == Digits(n))
  {
    DigitsSpell(n);
    if |Digits(n)| < width {
      ZerosSpell(width - |Digits(n)|, Digits(n));
    }
  }

  /** The name of a window that starts at or after the epoch: its start in nanoseconds, at least twenty digits, a
      dash, its number, at least six digits, and the extension. */
  lemma NameSpells(nanos: int64, seqNo: uint32)
    requires nanos >= 0
    ensures exists s, t ::
      && Name(nanos, seqNo) == s + "-" + t + ".json"
      && AllDigits(s) && |s| == 20 && Spelled(s) == nanos
      && AllDigits(t) && |t| >= 6 && Spelled(t) == seqNo && (|t| > 6 ==> t[0] != '0')
  {
    hide Digits, Spelled, Fixed, Padded, Pow10, DigitCount;
    var n: nat := nanos;
    var s, t := Padded(Digits(n), 20), Padded(Digits(seqNo), 6);
    PaddedSpells(n, 20);
    PaddedSpells(seqNo, 6);
    StartIsFormatted(nanos);
    DigitsSpell(seqNo);
    SpelledZero(seqNo);
    assert Name(nanos, seqNo) == s + "-" + t + ".json";
  }

  lemma SpelledZero(n: nat)
    ensures |Digits(n)| > 6 ==> n != 0
  {
  }

  // ----- Fixed-width decimals -----

  /** The last `k` decimal digits of a number. */
  function Fixed(n: nat, k: nat): (s: string)
    ensures |s| == k
  {
    if k == 0 then "" else Fixed(n / 10, k - 1) + [DigitChar(n % 10)]
  }

  function DigitCount(n: nat): (k: nat)
    ensures k >= 1
  {
    if n < 10 then 1 else DigitCount(n / 10) + 1
  }

  lemma {:induction false} DigitsAreFixed(n: nat)
    ensures Digits(n) == Fixed(n, DigitCount(n))
  {
    if n >= 10 {
      DigitsAreFixed(n / 10);
    } else {
      assert Fixed(n, 1) == Fixed(n / 10, 0) + [DigitChar(n % 10)];
    }
  }

  lemma {:induction false} FixedZero(k: nat)
    ensures Fixed(0, k) == Zeros(k)
  {
    if k > 0 {
      FixedZero(k - 1);
    }
  }

  lemma {:induction false} PaddedIsFixed(n: nat, width: nat)
    ensures Padded(Digits(n), width) == Fixed(n, if DigitCount(n) >= width then DigitCount(n) else width)
  {
    DigitsAreFixed(n);
    if DigitCount(n) < width {
      FixedFillsWithZeros(n, width);
    }
  }

  lemma {:induction false} FixedFillsWithZeros(n: nat, width: nat)
    requires DigitCount(n) < width
    ensures Fixed(n, width) == Zeros(width - DigitCount(n)) + Fixed(n, DigitCount(n))
  {
    if n < 10 {
      FixedZero(width - 1);
      assert Fixed(n, 1) == Fixed(n / 10, 0) + [DigitChar(n % 10)];
    } else {
      FixedFillsWithZeros(n / 10, width - 1);
      var k := DigitCount(n);
      assert Fixed(n, k) == Fixed(n / 10, k - 1) + [DigitChar(n % 10)];
    }
  }

  lemma {:induction false} DigitCountBound(n: nat, k: nat)
    requires n < Pow10(k) && k >= 1
    ensures DigitCount(n) <= k
  {
    if n >= 10 {
      DigitCountBound(n / 10, k - 1);
    }
  }

  /** Fixed-width decimals compare as the numbers they spell; at equal numbers the rest decides. */
  lemma {:induction false} FixedOrder(a: nat, b: nat, k: nat, x: string, y: string)
    requires a < Pow10(k) && b < Pow10(k)
    ensures Below(Fixed(a, k) + x, Fixed(b, k) + y) <==> a < b || (a == b && Below(x, y))
  {
    if k == 0 {
      assert Fixed(a, 0) + x == x && Fixed(b, 0) + y == y;
    } else {
      var c, d := DigitChar(a % 10), DigitChar(b % 10);
      FixedOrder(a / 10, b / 10, k - 1, [c] + x, [d] + y);
      assert Fixed(a, k) + x == Fixed(a / 10, k - 1) + ([c] + x);
      assert Fixed(b, k) + y == Fixed(b / 10, k - 1) + ([d] + y);
      assert ([c] + x)[1..] == x && ([d] + y)[1..] == y;
    }
  }

  // ----- The order of names -----

  /** The width at which a sequence number is written: six digits, more when it does not fit. */
  function SeqWidth(q: uint32): nat {
    if DigitCount(q) >= 6 then DigitCount(q) else 6
  }

  /** A number without its last `l` decimal digits. */
  function Leading(n: nat, l: nat): nat {
    if l == 0 then n else Leading(n / 10, l - 1)
  }

  /** The order in which two sequence numbers of the same start are listed. A longer number compares by its
      leading digits. */
  predicate SeqBefore(p: uint32, q: uint32) {
    if SeqWidth(p) == SeqWidth(q) then p < q
    else if SeqWidth(p) < SeqWidth(q) then p <= Leading(q, SeqWidth(q) - SeqWidth(p))
    else !(q <= Leading(p, SeqWidth(p) - SeqWidth(q)))
  }

  /** The order in which two starts are listed: chronological, except among instants before the epoch. */
  predicate StartBefore(u: int64, v: int64) {
    if u < 0 && v < 0 then v < u else u < v
  }

  predicate KeyBefore(u: int64, p: uint32, v: int64, q: uint32) {
    StartBefore(u, v) || (u == v && SeqBefore(p, q))
  }

  /** The start as written: always twenty characters. */
  function StartText(u: int64): string {
    var n: int := u;
    if n < 0 then "-" + Fixed(-n, 19) else Fixed(n, 20)
  }

  lemma SmallPowers()
    ensures Pow10(19) == 10_000_000_000_000_000_000
    ensures Pow10(20) == 100_000_000_000_000_000_000
    ensures Pow10(10) == 10_000_000_000
    ensures Pow10(6) == 1_000_000
  {
    assert Pow10(4) == 10_000;
    assert Pow10(6) == 1_000_000;
    assert Pow10(8) == 100_000_000;
    assert Pow10(10) == 10_000_000_000;
    assert Pow10(13) == 10_000_000_000_000;
    assert Pow10(16) == 10_000_000_000_000_000;
    assert Pow10(19) == 10_000_000_000_000_000_000;
  }

  lemma NameText(u: int64, q: uint32)
    ensures Name(u, q) == StartText(u) + ("-" + (Fixed(q, SeqWidth(q)) + EXTENSION))
  {
    hide Fixed, Digits, Padded, DigitCount;
    StartIsFormatted(u);
    PaddedIsFixed(q, 6);
  }

  lemma StartIsFormatted(u: int64)
    ensures FormatInt(u, 20) == StartText(u)
  {
    hide Fixed, Digits, Padded, DigitCount, Pow10;
    SmallPowers();
    var n: int := u;
    if n < 0 {
      DigitCountBound(-n, 19);
      PaddedIsFixed(-n, 19);
    } else {
      DigitCountBound(n, 20);
      PaddedIsFixed(n, 20);
    }
  }

  lemma StartOrder(u: int64, v: int64, x: string, y: string)
    ensures Below(StartText(u) + x, StartText(v) + y) <==> StartBefore(u, v) || (u == v && Below(x, y))
  {
    hide Fixed, Pow10;
    SmallPowers();
    var m: int, n: int := u, v;
    if m < 0 && n < 0 {
      FixedOrder(-m, -n, 19, x, y);
      assert StartText(u) + x == "-" + (Fixed(-m, 19) + x);
      assert StartText(v) + y == "-" + (Fixed(-n, 19) + y);
      BelowCommonPrefix("-", Fixed(-m, 19) + x, Fixed(-n, 19) + y);
    } else if m >= 0 && n >= 0 {
      FixedOrder(m, n, 20, x, y);
    } else if m < 0 {
      FirstDigit(n, 20);
    } else {
      FirstDigit(m, 20);
    }
  }

  lemma SeqOrder(p: uint32, q: uint32)
    ensures Below(Fixed(p, SeqWidth(p)) + EXTENSION, Fixed(q, SeqWidth(q)) + EXTENSION) <==> SeqBefore(p, q)
  {
    hide Fixed, Pow10, DigitCount, Below;
    SeqFits(p);
    SeqFits(q);
    if SeqWidth(p) == SeqWidth(q) {
      FixedOrder(p, q, SeqWidth(p), EXTENSION, EXTENSION);
      BelowIrreflexive(EXTENSION);
    } else if SeqWidth(p) < SeqWidth(q) {
      ShorterOrder(p, q, SeqWidth(p), SeqWidth(q));
    } else {
      ShorterOrder(q, p, SeqWidth(q), SeqWidth(p));
      BelowAsymmetric(Fixed(p, SeqWidth(p)) + EXTENSION, Fixed(q, SeqWidth(q)) + EXTENSION);
    }
  }

  lemma BelowAsymmetric(a: string, b: string)
    ensures a != b ==> (Below(a, b) <==> !Below(b, a))
  {
    BelowTotal(a, b);
    if Below(a, b) && Below(b, a) {
      BelowTransitive(a, b, a);
      BelowIrreflexive(a);
    }
  }

  lemma SeqFits(q: uint32)
    ensures q < Pow10(SeqWidth(q))
  {
    DigitsFit(q);
    if DigitCount(q) < 6 {
      Pow10Monotone(DigitCount(q), 6);
    }
  }

  lemma {:induction false} DigitsFit(n: nat)
    ensures n < Pow10(DigitCount(n))
  {
    if n >= 10 {
      DigitsFit(n / 10);
    }
  }

  lemma {:induction false} Pow10Monotone(k: nat, l: nat)
    requires k <= l
    ensures Pow10(k) <= Pow10(l)
  {
    if k < l {
      Pow10Monotone(k, l - 1);
    }
  }

  /** Against a longer number, a shorter one compares with its leading digits; the extension sorts before any
      digit, so at equal leading digits the shorter one comes first. */
  lemma ShorterOrder(p: nat, q: nat, k: nat, l: nat)
    requires k < l
    requires p < Pow10(k) && q < Pow10(l)
    ensures Below(Fixed(p, k) + EXTENSION, Fixed(q, l) + EXTENSION) <==> p <= Leading(q, l - k)
    ensures Fixed(p, k) + EXTENSION != Fixed(q, l) + EXTENSION
  {
    hide Fixed, Below, Pow10, Leading;
    FixedSplits(q, k, l - k);
    LeadingFits(q, k, l - k);
    var t := Leading(q, l - k);
    FixedOrder(p, t, k, EXTENSION, Fixed(q, l - k) + EXTENSION);
    assert Fixed(q, l) + EXTENSION == Fixed(t, k) + (Fixed(q, l - k) + EXTENSION);
    FirstDigit(q, l - k);
    DotBelowDigit(Fixed(q, l - k) + EXTENSION);
  }

  lemma DotBelowDigit(s: string)
    requires s != "" && '0' <= s[0] <= '9'
    ensures Below(EXTENSION, s)
  {
  }

  /** Decimals split at any position. */
  lemma {:induction false} FixedSplits(n: nat, k: nat, l: nat)
    ensures Fixed(n, k + l) == Fixed(Leading(n, l), k) + Fixed(n, l)
  {
    if l > 0 {
      FixedSplits(n / 10, k, l - 1);
    }
  }

  lemma {:induction false} LeadingFits(q: nat, k: nat, l: nat)
    requires q < Pow10(k + l)
    ensures Leading(q, l) < Pow10(k)
  {
    if l > 0 {
      LeadingFits(q / 10, k, l - 1);
    }
  }

  /** The listing order of names, for every start and every sequence number. */
  lemma NameOrder(u: int64, p: uint32, v: int64, q: uint32)
    ensures Below(Name(u, p), Name(v, q)) <==> KeyBefore(u, p, v, q)
  {
    hide Fixed, StartText, Below, Name;
    NameText(u, p);
    NameText(v, q);
    var x, y := Fixed(p, SeqWidth(p)) + EXTENSION, Fixed(q, SeqWidth(q)) + EXTENSION;
    StartOrder(u, v, "-" + x, "-" + y);
    BelowCommonPrefix("-", x, y);
    SeqOrder(p, q);
  }

  /** Two names are equal only if start and sequence number are. */
  lemma NamesInjective(u: int64, p: uint32, v: int64, q: uint32)
    requires Name(u, p) == Name(v, q)
    ensures u == v && p == q
  {
    hide Name, Below, SeqBefore;
    NameOrder(u, p, v, q);
    NameOrder(v, q, u, p);
    BelowIrreflexive(Name(u, p));
    SeqTotal(p, q);
  }

  lemma SeqTotal(p: uint32, q: uint32)
    ensures p != q ==> SeqBefore(p, q) || SeqBefore(q, p)
  {
  }

  /** For starts at or after the epoch and sequence numbers of up to six digits the listing is chronological. */
  lemma NamesChronological(u: int64, p: uint32, v: int64, q: uint32)
    requires u >= 0 || v >= 0
    requires p <= 999_999 && q <= 999_999
    ensures Below(Name(u, p), Name(v, q)) <==> u < v || (u == v && p < q)
  {
    hide Name, Below, DigitCount;
    NameOrder(u, p, v, q);
    SmallPowers();
    DigitCountBound(p, 6);
    DigitCountBound(q, 6);
  }

  /** Beyond six digits the order of two windows with one start is kept exactly when the earlier number does not
      exceed the leading digits of the later one. It first fails from 999999 to 1000000. */
  lemma SeqOrderKeptIff(u: int64, p: uint32, q: uint32)
    requires p < q
    ensures SeqWidth(p) <= SeqWidth(q)
    ensures Below(Name(u, p), Name(u, q)) <==> p <= Leading(q, SeqWidth(q) - SeqWidth(p))
  {
    hide Name, Below, DigitCount;
    SeqWidthMonotone(p, q);
    NameOrder(u, p, u, q);
  }

  lemma {:induction false} DigitCountMonotone(p: nat, q: nat)
    requires p <= q
    ensures DigitCount(p) <= DigitCount(q)
  {
    if p >= 10 {
      DigitCountMonotone(p / 10, q / 10);
    }
  }

  lemma SeqWidthMonotone(p: uint32, q: uint32)
    requires p <= q
    ensures SeqWidth(p) <= SeqWidth(q)
  {
    DigitCountMonotone(p, q);
  }

  lemma MillionthNameOutOfOrder(u: int64)
    ensures Below(Name(u, 1_000_000), Name(u, 999_999))
  {
    hide Name, Below;
    NameOrder(u, 1_000_000, u, 999_999);
    SixAndSevenDigits();
    assert Leading(1_000_000, 1) == Leading(100_000, 0);
  }

  lemma SixAndSevenDigits()
    ensures DigitCount(999_999) == 6 && DigitCount(1_000_000) == 7
  {
    assert DigitCount(99_999) == 5 && DigitCount(9_999) == 4 && DigitCount(999) == 3 && DigitCount(99) == 2;
    assert DigitCount(100_000) == 6 && DigitCount(10_000) == 5 && DigitCount(1_000) == 4 && DigitCount(100) == 3;
  }

  /** Before the epoch the listing runs backwards. */
  lemma BeforeEpochBackwards(u: int64, p: uint32, v: int64, q: uint32)
    requires u < v < 0
    ensures Below(Name(v, q), Name(u, p))
  {
    hide Name, Below;
    NameOrder(v, q, u, p);
  }

  lemma {:induction false} FirstDigit(n: nat, k: nat)
    requires k > 0
    ensures '0' <= Fixed(n, k)[0] <= '9'
  {
    if k > 1 {
      FirstDigit(n / 10, k - 1);
    }
  }
}
