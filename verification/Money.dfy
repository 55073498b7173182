/** The demo store's catalogue, its money arithmetic, the planted bug and the seeded check that finds it. */
module Money {
  import opened Text

  datatype Product = Product(id: string, name: string, priceCents: nat, stock: nat)

  datatype Line = Line(productId: string, quantity: int)

  // Everything below holds for any catalogue in which every product costs at least a cent.
  type Catalogue = ps: seq<Product> | forall p :: p in ps ==> p.priceCents >= 1 witness []

  const KETTLE := Product("kettle-01", "Gooseneck Kettle", 8900, 12)
  const GRINDER := Product("grinder-02", "Burr Grinder", 14900, 5)
  const SCALE := Product("scale-03", "Brew Scale", 4500, 30)
  const BEANS := Product("beans-04", "Single Origin \U{2014} Yirgacheffe", 1800, 100)
  const MUG := Product("mug-05", "Walled Tasting Mug", 2200, 0)

  const PRODUCTS: Catalogue := [KETTLE, GRINDER, SCALE, BEANS, MUG]

  const SHIPPING_CENTS := 700
  const FREE_SHIPPING_THRESHOLD_CENTS := 15000

  function FindProduct(ps: Catalogue, id: string): (r: Option<Product>)
    ensures r.Some? ==> r.value in ps && r.value.id == id
    ensures r.None? ==> forall p :: p in ps ==> p.id != id
  {
    if ps == [] then None else if ps[0].id == id then Some(ps[0]) else FindProduct(ps[1..], id)
  }

  function Price(priceCents: nat, quantity: int): int { priceCents * quantity }

  // ----- totals ------------------------------------------------------------------

  function SubtotalCents(ps: Catalogue, lines: seq<Line>): int {
    if lines == [] then 0
    else
      var rest := SubtotalCents(ps, lines[..|lines| - 1]);
      var line := lines[|lines| - 1];
      match FindProduct(ps, line.productId)
      case Some(p) => rest + Price(p.priceCents, line.quantity)
      case None => rest
  }

  function ShippingFor(subtotal: int): int {
    if subtotal >= FREE_SHIPPING_THRESHOLD_CENTS || subtotal == 0 then 0 else SHIPPING_CENTS
  }

  // Math.round(subtotal * 0.08): eight hundredths, rounded half up.
  function TaxCents(subtotal: int): int { (8 * subtotal + 50) / 100 }

  function CorrectTotal(subtotal: int): int { subtotal + ShippingFor(subtotal) + TaxCents(subtotal) }

  // A sum of cents, or the -Infinity left by subtracting the price of an unknown product.
  datatype Amount = Cents(cents: int) | NegInfinity

  // Math.min over the line prices; None stands for Infinity, the price of an unknown product.
  function CheapestLineCents(ps: Catalogue, lines: seq<Line>): Option<int> {
    if lines == [] then None
    else
      var rest := CheapestLineCents(ps, lines[1..]);
      match FindProduct(ps, lines[0].productId)
      case Some(p) =>
        var here := Price(p.priceCents, lines[0].quantity);
        if rest.Some? && rest.value < here then rest else Some(here)
      case None => rest
  }

  function OrderTotalCents(ps: Catalogue, lines: seq<Line>, plantedBug: bool): Amount {
    var correct := CorrectTotal(SubtotalCents(ps, lines));
    if !plantedBug || |lines| < 2 then Cents(correct)
    else match CheapestLineCents(ps, lines)
         case Some(c) => Cents(correct - c)
         case None => NegInfinity
  }

  datatype Totals = Totals(subtotal: int, shipping: int, tax: int, total: Amount)

  function TotalsFor(ps: Catalogue, lines: seq<Line>, plantedBug: bool): Totals {
    var subtotal := SubtotalCents(ps, lines);
    Totals(subtotal, ShippingFor(subtotal), TaxCents(subtotal), OrderTotalCents(ps, lines, plantedBug))
  }

  // ----- what the sums are ---------------------------------------------------------

  lemma {:induction false} SubtotalOfSum(ps: Catalogue, a: seq<Line>, b: seq<Line>)
    ensures SubtotalCents(ps, a + b) == SubtotalCents(ps, a) + SubtotalCents(ps, b)
  {
    hide Price, FindProduct;
    if b == [] {
      assert a + b == a;
    } else {
      assert (a + b)[..|a + b| - 1] == a + b[..|b| - 1];
      SubtotalOfSum(ps, a, b[..|b| - 1]);
    }
  }

  /** The subtotal adds up, part by part, and one line counts its price times its quantity, or nothing when unknown. */
  lemma SubtotalAddsUp(ps: Catalogue, a: seq<Line>, line: Line, b: seq<Line>)
    ensures SubtotalCents(ps, a + [line] + b) ==
            var p := FindProduct(ps, line.productId);
            SubtotalCents(ps, a + b) + (if p.Some? then p.value.priceCents * line.quantity else 0)
  {
    hide FindProduct;
    SubtotalOfSum(ps, a + [line], b);
    SubtotalOfSum(ps, a, [line]);
    SubtotalOfSum(ps, a, b);
    assert [line][..0] == [];
  }

  ghost predicate IsKnownPrice(ps: Catalogue, lines: seq<Line>, i: nat, c: int) {
    && i < |lines| && FindProduct(ps, lines[i].productId).Some?
    && FindProduct(ps, lines[i].productId).value.priceCents * lines[i].quantity == c
  }

  lemma KnownPriceOfTail(ps: Catalogue, lines: seq<Line>, i: nat, d: int)
    requires lines != []
    ensures IsKnownPrice(ps, lines[1..], i, d) <==> IsKnownPrice(ps, lines, i + 1, d)
  {}

  /** The cheapest line is the least price among the lines with a known product; there is none when none is known. */
  lemma {:induction false} CheapestIs(ps: Catalogue, lines: seq<Line>)
    ensures var r := CheapestLineCents(ps, lines);
            && (r.Some? <==> exists i: nat, d: int :: IsKnownPrice(ps, lines, i, d))
            && (r.Some? ==> exists i: nat :: IsKnownPrice(ps, lines, i, r.value))
            && (r.Some? ==> forall i: nat, d: int :: IsKnownPrice(ps, lines, i, d) ==> r.value <= d)
  {
    hide FindProduct;
    if lines != [] {
      var rest, p := CheapestLineCents(ps, lines[1..]), FindProduct(ps, lines[0].productId);
      CheapestIs(ps, lines[1..]);
      forall i: nat, d: int ensures IsKnownPrice(ps, lines[1..], i, d) <==> IsKnownPrice(ps, lines, i + 1, d) {
        KnownPriceOfTail(ps, lines, i, d);
      }
      if p.Some? { assert IsKnownPrice(ps, lines, 0, Price(p.value.priceCents, lines[0].quantity)); }
      forall i: nat, d: int | IsKnownPrice(ps, lines, i, d)
        ensures i > 0 ==> IsKnownPrice(ps, lines[1..], i - 1, d)
      {
        if i > 0 { KnownPriceOfTail(ps, lines, i - 1, d); }
      }
    }
  }

  /** Tax is the one nearest cent to eight per cent: no subtotal is a rounding tie. */
  lemma TaxIsNearest(s: int, t: int)
    ensures -48 <= 100 * TaxCents(s) - 8 * s <= 48
    ensures t != TaxCents(s) ==> Distance(TaxCents(s), s) < Distance(t, s)
  {
    var r := 8 * s + 50 - 100 * TaxCents(s);
    assert r == 4 * (2 * s + 12 - 25 * TaxCents(s)) + 2;
  }

  // How far t cents are from 8% of s, in hundredths of a cent.
  function Distance(t: int, s: int): nat {
    if 100 * t >= 8 * s then 100 * t - 8 * s else 8 * s - 100 * t
  }

  /** Raising the subtotal can lower the total only by crossing the free-shipping line, and by at most 699 cents. */
  lemma TotalDropsAtMost699(s: nat, s': nat)
    requires s <= s'
    ensures TaxCents(s) <= TaxCents(s')
    ensures CorrectTotal(s') >= CorrectTotal(s) - 699
    ensures CorrectTotal(s') == CorrectTotal(s) - 699 <==> (s == 14999 && s' == 15000)
    ensures CorrectTotal(s') < CorrectTotal(s) ==> 0 < s < 15000 <= s'
  {}

  // ----- rendering and reading back ---------------------------------------------------

  // `$${(cents / 100).toFixed(2)}`
  function FormatMoney(cents: int): string {
    "$" + (if cents < 0 then "-" + Fixed2(-cents) else Fixed2(cents))
  }

  function Fixed2(cents: nat): string {
    Decimal(cents / 100) + "." + [Digit(cents / 10 % 10), Digit(cents % 10)]
  }

  function FormatAmount(a: Amount): string {
    match a case Cents(c) => FormatMoney(c) case NegInfinity => "$-Infinity"
  }

  predicate IsMoneyChar(c: char) { IsDigit(c) || c == '.' || c == '-' }

  // text.replace(/[^0-9.-]/g, '')
  function MoneyChars(s: string): string {
    if s == [] then [] else (if IsMoneyChar(s[0]) then [s[0]] else []) + MoneyChars(s[1..])
  }

  function WholeOf(s: string, i: nat, j: nat): nat
    requires j <= |s|
  {
    if j <= i then 0 else 10 * WholeOf(s, i, j - 1) + DigitValue(s[j - 1])
  }

  // The value of the digits from i on, read after a decimal point.
  function FractionOf(s: string, i: nat): real
    decreases |s| - i
  {
    if i < |s| && IsDigit(s[i]) then (DigitValue(s[i]) as real + FractionOf(s, i + 1)) / 10.0 else 0.0
  }

  // Number.parseFloat on digits, dots and minus signs; None is NaN.
  function ParseFloat(s: string): Option<real> {
    if s != [] && s[0] == '-' then
      match ParseUnsigned(s, 1) case Some(x) => Some(-x) case None => None
    else ParseUnsigned(s, 0)
  }

  function ParseUnsigned(s: string, i: nat): Option<real> {
    var e := DigitsEnd(s, i);
    var whole := if e <= |s| then WholeOf(s, i, e) else 0;
    var pointed := e < |s| && s[e] == '.' && DigitsEnd(s, e + 1) > e + 1;
    if e == i && !pointed then None
    else Some(whole as real + (if pointed then FractionOf(s, e + 1) else 0.0))
  }

  datatype Parsed = Thrown | Number(value: Option<int>)

  // Math.round rounds half up.
  function ParseMoney(text: string): Parsed {
    if text == "" then Thrown
    else match ParseFloat(MoneyChars(text))
         case Some(x) => Number(Some((x * 100.0 + 0.5).Floor))
         case None => Number(None)
  }

  lemma {:induction false} MoneyCharsKeep(s: string)
    requires forall i :: 0 <= i < |s| ==> IsMoneyChar(s[i])
    ensures MoneyChars(s) == s
  {
    if s != [] {
      MoneyCharsKeep(s[1..]);
      assert s == [s[0]] + s[1..];
    }
  }

  lemma {:induction false} WholeOfSlice(s: string, i: nat, j: nat)
    requires i <= j <= |s|
    ensures WholeOf(s, i, j) == NatOf(s[i..j])
  {
    if i < j {
      WholeOfSlice(s, i, j - 1);
      assert s[i..j][..j - i - 1] == s[i..j - 1];
    }
  }

  lemma CentsSplit(c: nat)
    ensures (c / 100) as real + ((c / 10 % 10) as real + (c % 10) as real / 10.0) / 10.0 == c as real / 100.0
  {
    var whole, tens, ones := c / 100, c / 10 % 10, c % 10;
    assert c == 100 * whole + 10 * tens + ones;
    assert c as real == 100.0 * whole as real + 10.0 * tens as real + ones as real;
  }

  // Two decimals read back after any prefix, in particular after a minus sign.
  lemma ParseFixed2(sign: string, c: nat)
    ensures ParseUnsigned(sign + Fixed2(c), |sign|) == Some(c as real / 100.0)
  {
    var whole := Decimal(c / 100);
    var s := sign + Fixed2(c);
    var i, e := |sign|, |sign| + |whole|;
    assert s[i..e] == whole;
    assert forall k :: i <= k < e ==> s[k] == whole[k - i];
    assert |s| == e + 3 && s[e] == '.' && s[e + 1] == Digit(c / 10 % 10) && s[e + 2] == Digit(c % 10);
    DigitsEndAt(s, i, e);
    DigitsEndAt(s, e + 1, e + 3);
    WholeOfSlice(s, i, e);
    NatOfDecimal(c / 100);
    assert FractionOf(s, e + 2) == (c % 10) as real / 10.0;
    CentsSplit(c);
  }

  lemma Fixed2Chars(c: nat)
    ensures MoneyChars(Fixed2(c)) == Fixed2(c) && Fixed2(c)[0] != '-'
    ensures MoneyChars("-" + Fixed2(c)) == "-" + Fixed2(c)
  {
    assert Fixed2(c)[0] == Decimal(c / 100)[0];
    MoneyCharsKeep(Fixed2(c));
    MoneyCharsKeep("-" + Fixed2(c));
  }

  lemma RoundCents(c: int)
    ensures (c as real / 100.0 * 100.0 + 0.5).Floor == c
  {}

  lemma ParseSigned(c: nat)
    ensures ParseFloat(Fixed2(c)) == Some(c as real / 100.0)
    ensures ParseFloat("-" + Fixed2(c)) == Some(-(c as real / 100.0))
  {
    hide Fixed2, ParseUnsigned, MoneyChars;
    Fixed2Chars(c);
    ParseFixed2("", c);
    assert "" + Fixed2(c) == Fixed2(c);
    ParseFixed2("-", c);
  }

  lemma ParseMoneyOf(body: string, x: real)
    requires MoneyChars(body) == body && ParseFloat(body) == Some(x)
    ensures ParseMoney("$" + body) == Number(Some((x * 100.0 + 0.5).Floor))
  {
    hide ParseFloat;
    assert ("$" + body)[1..] == body;
    assert MoneyChars("$" + body) == body;
  }

  /** Rendering an amount and reading it back is the identity on every number of cents. */
  lemma ParseFormat(c: int)
    ensures ParseMoney(FormatMoney(c)) == Number(Some(c))
  {
    hide Fixed2, MoneyChars, ParseFloat, ParseMoney;
    var n: nat := if c < 0 then -c else c;
    var body := Fixed2(n);
    var x := n as real / 100.0;
    Fixed2Chars(n);
    ParseSigned(n);
    RoundCents(c);
    if c < 0 {
      ParseMoneyOf("-" + body, -x);
    } else {
      ParseMoneyOf(body, x);
    }
  }

  lemma {:induction false} MoneyCharsSum(s: string, t: string)
    ensures MoneyChars(s + t) == MoneyChars(s) + MoneyChars(t)
  {
    if s == [] {
      assert s + t == t;
    } else {
      var u, head := s + t, if IsMoneyChar(s[0]) then [s[0]] else [];
      assert u[1..] == s[1..] + t && u[0] == s[0];
      assert MoneyChars(u) == head + MoneyChars(u[1..]) && MoneyChars(s) == head + MoneyChars(s[1..]);
      MoneyCharsSum(s[1..], t);
      hide MoneyChars, IsMoneyChar;
      assert head + (MoneyChars(s[1..]) + MoneyChars(t)) == head + MoneyChars(s[1..]) + MoneyChars(t);
    }
  }

  /** Only digits, dots and minus signs are read, and nothing is thrown but for a text that is missing. */
  lemma OnlyMoneyCharsMatter(a: string, c: char, b: string)
    requires c !in DIGITS && c != '.' && c != '-' && a + b != ""
    ensures ParseMoney(a + [c] + b) == ParseMoney(a + b)
    ensures ParseMoney(a + b).Number? && ParseMoney("") == Thrown
  {
    DigitsAre(c);
    MoneyCharsSum(a + [c], b);
    MoneyCharsSum(a, [c]);
    MoneyCharsSum(a, b);
    assert MoneyChars([c]) == [] && MoneyChars(a) + [] == MoneyChars(a);
  }

  lemma TimesTen(d: nat, p: nat, n: nat)
    ensures 10 * (d * p + n) == d * (10 * p) + 10 * n
  {}

  lemma {:induction false} NatOfCons(c: char, t: string)
    ensures NatOf([c] + t) == DigitValue(c) * Pow10(|t|) + NatOf(t)
  {
    if t == "" {
      assert [c] + t == [c];
    } else {
      hide DigitValue;
      var s, front := [c] + t, t[..|t| - 1];
      assert s[..|s| - 1] == [c] + front && s[|s| - 1] == t[|t| - 1];
      NatOfCons(c, front);
      TimesTen(DigitValue(c), Pow10(|front|), NatOf(front));
    }
  }

  // The value of the digits after a point.
  function Decimals(f: string): real { NatOf(f) as real / Pow10(|f|) as real }

  lemma {:induction false} FractionIs(s: string, i: nat, j: nat)
    requires i <= j <= |s| && (forall k :: i <= k < j ==> IsDigit(s[k])) && (j < |s| ==> !IsDigit(s[j]))
    ensures FractionOf(s, i) == Decimals(s[i..j])
    decreases j - i
  {
    if i < j {
      FractionIs(s, i + 1, j);
      NatOfCons(s[i], s[i + 1..j]);
      assert s[i..j] == [s[i]] + s[i + 1..j];
      ShiftPoint(DigitValue(s[i]), NatOf(s[i + 1..j]), Pow10(j - i - 1));
    } else {
      assert s[i..j] == "";
    }
  }

  lemma ShiftPoint(d: nat, n: nat, p: nat)
    requires p > 0
    ensures (d as real + n as real / p as real) / 10.0 == (d * p + n) as real / (10 * p) as real
  {
    var q := p as real;
    assert (d * p + n) as real == d as real * q + n as real && (10 * p) as real == 10.0 * q;
    var x := n as real / q;
    assert x * q == n as real;
    assert (d as real + x) / 10.0 * (10.0 * q) == d as real * q + n as real;
  }

  // What may follow a number without going on with it.
  predicate StopsWhole(r: string) {
    r == "" || (!IsDigit(r[0]) && !(r[0] == '.' && |r| > 1 && IsDigit(r[1])))
  }

  lemma ParseWholeAt(a: string, w: string, r: string)
    requires AllDigits(w) && StopsWhole(r)
    ensures ParseUnsigned(a + w + r, |a|) == if w == "" then None else Some(NatOf(w) as real)
  {
    var s, i, e := a + w + r, |a|, |a| + |w|;
    assert s[i..e] == w && forall k :: i <= k < e ==> s[k] == w[k - i];
    assert forall k :: e <= k < |s| ==> s[k] == r[k - e];
    DigitsEndAt(s, i, e);
    WholeOfSlice(s, i, e);
  }

  lemma ParsePointIn(s: string, i: nat, e: nat, g: nat)
    requires i <= e < g - 1 < |s| && s[e] == '.' && (g < |s| ==> !IsDigit(s[g]))
    requires (forall k :: i <= k < e ==> IsDigit(s[k])) && (forall k :: e + 1 <= k < g ==> IsDigit(s[k]))
    ensures ParseUnsigned(s, i) ==
            Some(NatOf(s[i..e]) as real + Decimals(s[e + 1..g]))
  {
    assert !IsDigit(s[e]);
    hide DigitsEnd, WholeOf, FractionOf, NatOf, Decimals, IsDigit;
    DigitsEndAt(s, i, e);
    DigitsEndAt(s, e + 1, g);
    WholeOfSlice(s, i, e);
    FractionIs(s, e + 1, g);
  }

  lemma DigitsInside(x: string, y: string, z: string)
    requires AllDigits(y)
    ensures var s := x + y + z;
            s[|x|..|x| + |y|] == y && forall k :: |x| <= k < |x| + |y| ==> IsDigit(s[k])
  {
    var s := x + y + z;
    assert forall k :: |x| <= k < |x| + |y| ==> s[k] == y[k - |x|];
  }

  lemma ParsePointAt(a: string, w: string, f: string, r: string)
    requires AllDigits(w) && AllDigits(f) && f != "" && (r != "" ==> !IsDigit(r[0]))
    ensures ParseUnsigned(a + (w + "." + f + r), |a|) == Some(NatOf(w) as real + Decimals(f))
  {
    hide ParseUnsigned, NatOf, Decimals, IsDigit, AllDigits;
    var s := a + (w + "." + f + r);
    assert s == a + w + ("." + f + r) && s == a + w + "." + f + r;
    DigitsInside(a, w, "." + f + r);
    DigitsInside(a + w + ".", f, r);
    ParsePointIn(s, |a|, |a| + |w|, |a| + |w| + 1 + |f|);
  }

  lemma ParseFloatSigned(s: string)
    ensures ParseFloat("-" + s) == match ParseUnsigned("-" + s, 1) case Some(x) => Some(-x) case None => None
    ensures !("-" <= s) ==> ParseFloat(s) == ParseUnsigned(s, 0)
  {
    hide ParseUnsigned;
    if s != "" && s[0] == '-' { assert "-" <= s; }
  }

  /** Reading takes the longest number a text begins with: digits, with a point if digits follow it, and a minus in
      front turns the sign. Without digits there is no number, ... */
  lemma LongestWholeIsRead(w: string, rest: string)
    requires AllDigits(w) && StopsWhole(rest)
    ensures !("-" <= w + rest) ==> ParseFloat(w + rest) == if w == "" then None else Some(NatOf(w) as real)
    ensures ParseFloat("-" + (w + rest)) == if w == "" then None else Some(-(NatOf(w) as real))
  {
    hide ParseUnsigned, ParseFloat, NatOf, IsDigit, StopsWhole;
    assert "" + w + rest == w + rest && "-" + w + rest == "-" + (w + rest);
    ParseWholeAt("", w, rest);
    ParseWholeAt("-", w, rest);
    ParseFloatSigned(w + rest);
  }

  /** ... and a point needs digits after it only. */
  lemma LongestDecimalIsRead(w: string, f: string, rest: string)
    requires AllDigits(w) && AllDigits(f) && f != "" && (rest != "" ==> !IsDigit(rest[0]))
    ensures var x := NatOf(w) as real + Decimals(f);
            && ParseFloat(w + "." + f + rest) == Some(x)
            && ParseFloat("-" + (w + "." + f + rest)) == Some(-x)
  {
    hide ParseUnsigned, ParseFloat, NatOf, Decimals, IsDigit;
    var s := w + "." + f + rest;
    assert "" + s == s;
    ParsePointAt("", w, f, rest);
    ParsePointAt("-", w, f, rest);
    NoMinusFirst(w, f + rest);
    assert s == w + "." + (f + rest);
    ParseFloatSigned(s);
  }

  lemma NoMinusFirst(w: string, rest: string)
    requires AllDigits(w)
    ensures !("-" <= w + "." + rest)
  {
    assert (w + "." + rest)[0] == if w == "" then '.' else w[0];
  }

  // An amount with three decimals.
  function Fixed3(whole: nat, tenths: nat, cents: nat, mills: nat): string
    requires tenths < 10 && cents < 10 && mills < 10
  {
    Decimal(whole) + "." + [Digit(tenths), Digit(cents), Digit(mills)]
  }

  lemma NatOfThree(a: nat, b: nat, c: nat)
    requires a < 10 && b < 10 && c < 10
    ensures NatOf([Digit(a), Digit(b), Digit(c)]) == 100 * a + 10 * b + c
  {
    NatOfCons(Digit(a), [Digit(b), Digit(c)]);
    NatOfCons(Digit(b), [Digit(c)]);
    assert [Digit(a)] + [Digit(b), Digit(c)] == [Digit(a), Digit(b), Digit(c)];
    assert [Digit(b)] + [Digit(c)] == [Digit(b), Digit(c)] && [Digit(c)][..0] == [];
    assert Pow10(1) == 10 && Pow10(2) == 100;
  }

  lemma RoundThousandths(cents: nat, mills: nat)
    requires mills < 10
    ensures ((10 * cents + mills) as real / 1000.0 * 100.0 + 0.5).Floor == cents + (if mills >= 5 then 1 else 0)
    ensures (-((10 * cents + mills) as real / 1000.0) * 100.0 + 0.5).Floor == 0 - cents - (if mills > 5 then 1 else 0)
  {
    assert (10 * cents + mills) as real / 1000.0 * 100.0 == cents as real + mills as real / 10.0;
  }

  lemma ThousandthsSplit(whole: nat, n: nat)
    ensures whole as real + n as real / 1000.0 == (1000 * whole + n) as real / 1000.0
  {}

  lemma ParseSigned3(whole: nat, tenths: nat, cents: nat, mills: nat)
    requires tenths < 10 && cents < 10 && mills < 10
    ensures var s := Fixed3(whole, tenths, cents, mills);
            var x := (1000 * whole + 100 * tenths + 10 * cents + mills) as real / 1000.0;
            && ParseFloat(s) == Some(x) && ParseFloat("-" + s) == Some(-x)
            && MoneyChars(s) == s && MoneyChars("-" + s) == "-" + s
  {
    hide ParseFloat, Decimal, NatOf;
    var f := [Digit(tenths), Digit(cents), Digit(mills)];
    var s := Fixed3(whole, tenths, cents, mills);
    MoneyCharsKeep(s);
    MoneyCharsKeep("-" + s);
    NatOfDecimal(whole);
    NatOfThree(tenths, cents, mills);
    assert Pow10(3) == 1000;
    hide Pow10;
    assert s == Decimal(whole) + "." + f + "";
    LongestDecimalIsRead(Decimal(whole), f, "");
    ThousandthsSplit(whole, 100 * tenths + 10 * cents + mills);
  }

  // In exact arithmetic a third decimal rounds to the nearest cent, a five upwards; a double can fall on either side.
  lemma ThirdDecimalRounds(whole: nat, tenths: nat, cents: nat, mills: nat)
    requires tenths < 10 && cents < 10 && mills < 10
    ensures var s, n := Fixed3(whole, tenths, cents, mills), 100 * whole + 10 * tenths + cents;
            && ParseMoney("$" + s) == Number(Some(n + (if mills >= 5 then 1 else 0)))
            && ParseMoney("$" + ("-" + s)) == Number(Some(0 - n - (if mills > 5 then 1 else 0)))
  {
    hide ParseMoney, ParseFloat, MoneyChars, Fixed3;
    var s, n := Fixed3(whole, tenths, cents, mills), 100 * whole + 10 * tenths + cents;
    ParseSigned3(whole, tenths, cents, mills);
    ParseMoneyOf(s, (10 * n + mills) as real / 1000.0);
    ParseMoneyOf("-" + s, -((10 * n + mills) as real / 1000.0));
    RoundThousandths(n, mills);
  }

  /** A whole number reads as that many dollars. */
  lemma WholeNumbersRead(n: nat)
    ensures ParseMoney(Decimal(n)) == Number(Some(100 * n))
  {
    var s := Decimal(n);
    MoneyCharsKeep(s);
    DigitsEndAt(s, 0, |s|);
    WholeOfSlice(s, 0, |s|);
    assert s[0..|s|] == s;
    NatOfDecimal(n);
    assert s[0] != '-';
    RoundCents(100 * n);
  }

  // ----- the seeded assertion ------------------------------------------------------

  function Plus(x: Option<int>, y: Option<int>): Option<int> {
    if x.Some? && y.Some? then Some(x.value + y.value) else None
  }

  // The seeded test reads four rendered amounts and compares; false when it fails.
  predicate ChecksOut(subtotal: Parsed, shipping: Parsed, tax: Parsed, total: Parsed) {
    && subtotal.Number? && shipping.Number? && tax.Number? && total.Number?
    && total.value == Plus(Plus(subtotal.value, shipping.value), tax.value)
  }

  predicate SeededCheck(t: Totals) {
    ChecksOut(ParseMoney(FormatMoney(t.subtotal)), ParseMoney(FormatMoney(t.shipping)),
              ParseMoney(FormatMoney(t.tax)), ParseMoney(FormatAmount(t.total)))
  }

  lemma BareMinusIsNaN(t: string)
    requires |t| >= 2 && t[0] == '$' && t[1] == '-' && forall i :: 2 <= i < |t| ==> !IsMoneyChar(t[i])
    ensures ParseMoney(t) == Number(None)
  {
    MoneyCharsDrop(t[1..][1..]);
    assert MoneyChars(t[1..]) == "-";
    assert MoneyChars(t) == "-";
  }

  lemma {:induction false} MoneyCharsDrop(s: string)
    requires forall i :: 0 <= i < |s| ==> !IsMoneyChar(s[i])
    ensures MoneyChars(s) == []
  {
    if s != [] { MoneyCharsDrop(s[1..]); }
  }

  function Reading(a: Amount): Parsed {
    match a case Cents(c) => Number(Some(c)) case NegInfinity => Number(None)
  }

  lemma ReadingOf(a: Amount)
    ensures ParseMoney(FormatAmount(a)) == Reading(a)
  {
    match a {
      case Cents(c) => ParseFormat(c);
      case NegInfinity => BareMinusIsNaN("$-Infinity");
    }
  }

  lemma ReadingsSum(t: Totals, subtotal: Parsed, shipping: Parsed, tax: Parsed, total: Parsed)
    requires subtotal == Number(Some(t.subtotal)) && shipping == Number(Some(t.shipping)) && tax == Number(Some(t.tax))
    requires total == Reading(t.total)
    ensures ChecksOut(subtotal, shipping, tax, total) <==> t.total == Cents(t.subtotal + t.shipping + t.tax)
  {}

  lemma SeededCheckSums(t: Totals)
    ensures SeededCheck(t) <==> t.total == Cents(t.subtotal + t.shipping + t.tax)
  {
    ParseFormat(t.subtotal);
    ParseFormat(t.shipping);
    ParseFormat(t.tax);
    ReadingOf(t.total);
    ReadingsSum(t, ParseMoney(FormatMoney(t.subtotal)), ParseMoney(FormatMoney(t.shipping)),
                ParseMoney(FormatMoney(t.tax)), ParseMoney(FormatAmount(t.total)));
  }

  lemma BugShows(ps: Catalogue, lines: seq<Line>, bug: bool)
    ensures var t := TotalsFor(ps, lines, bug);
            t.total == Cents(t.subtotal + t.shipping + t.tax) <==>
            !bug || |lines| < 2 || CheapestLineCents(ps, lines) == Some(0)
  {}

  /** For any lines at all: the seeded test fails exactly when the bug is on and drops a line that is not free. */
  lemma SeededCheckCharacterised(ps: Catalogue, lines: seq<Line>, bug: bool)
    ensures SeededCheck(TotalsFor(ps, lines, bug)) <==>
            !bug || |lines| < 2 || CheapestLineCents(ps, lines) == Some(0)
  {
    var t := TotalsFor(ps, lines, bug);
    SeededCheckSums(t);
    BugShows(ps, lines, bug);
  }

  // What the cart routes maintain: distinct known products, between one and the stock of each.
  ghost predicate IsCart(ps: Catalogue, lines: seq<Line>) {
    && (forall i :: 0 <= i < |lines| ==> IsStocked(ps, lines[i]))
    && (forall i, j :: 0 <= i < j < |lines| ==> lines[i].productId != lines[j].productId)
  }

  ghost predicate IsStocked(ps: Catalogue, line: Line) {
    var p := FindProduct(ps, line.productId);
    p.Some? && 1 <= line.quantity <= p.value.stock
  }

  lemma {:induction false} CheapestIsPositive(ps: Catalogue, lines: seq<Line>)
    requires lines != [] && forall i :: 0 <= i < |lines| ==> IsStocked(ps, lines[i])
    ensures CheapestLineCents(ps, lines).Some? && CheapestLineCents(ps, lines).value >= 1
  {
    var p := FindProduct(ps, lines[0].productId).value;
    assert Price(p.priceCents, lines[0].quantity) >= 1;
    if |lines| > 1 {
      CheapestIsPositive(ps, lines[1..]);
    } else {
      assert lines[1..] == [];
    }
  }

  lemma {:induction false} CartCosts(ps: Catalogue, lines: seq<Line>)
    requires forall i :: 0 <= i < |lines| ==> IsStocked(ps, lines[i])
    ensures SubtotalCents(ps, lines) >= |lines|
  {
    if lines != [] {
      CartCosts(ps, lines[..|lines| - 1]);
      assert IsStocked(ps, lines[|lines| - 1]);
    }
  }

  /** Shipping is 7.00, and free from 150.00 on and for an empty cart. */
  lemma CartShips(ps: Catalogue, lines: seq<Line>)
    requires IsCart(ps, lines)
    ensures ShippingFor(SubtotalCents(ps, lines)) == if lines == [] || SubtotalCents(ps, lines) >= 15000 then 0 else 700
  {
    CartCosts(ps, lines);
  }

  /** On a non-empty cart the routes can build, the seeded test fails exactly when the bug is on
      and there are two lines. */
  lemma PlantedBugIsDetected(ps: Catalogue, lines: seq<Line>, bug: bool)
    requires IsCart(ps, lines) && lines != []
    ensures !SeededCheck(TotalsFor(ps, lines, bug)) <==> bug && |lines| >= 2
  {
    SeededCheckCharacterised(ps, lines, bug);
    CheapestIsPositive(ps, lines);
  }

  // ----- the shipped catalogue -------------------------------------------------------

  lemma ShippedPrices()
    ensures FindProduct(PRODUCTS, "scale-03").Some? && FindProduct(PRODUCTS, "scale-03").value.priceCents == 4500
    ensures FindProduct(PRODUCTS, "beans-04").Some? && FindProduct(PRODUCTS, "beans-04").value.priceCents == 1800
  {
    hide FindProduct;
    ShippedCatalogue("scale-03");
    ShippedCatalogue("beans-04");
  }

  lemma FindInCons(p: Product, ps: Catalogue, id: string)
    requires p.priceCents >= 1
    ensures FindProduct([p] + ps, id) == if p.id == id then Some(p) else FindProduct(ps, id)
  {
    assert ([p] + ps)[1..] == ps;
  }

  lemma NothingToFind(id: string)
    ensures FindProduct([], id) == None
  {}

  /** The shipped catalogue, by id: what each product is called, costs and has in stock. */
  lemma ShippedCatalogue(id: string)
    ensures FindProduct(PRODUCTS, id) ==
            if id == "kettle-01" then Some(Product(id, "Gooseneck Kettle", 8900, 12))
            else if id == "grinder-02" then Some(Product(id, "Burr Grinder", 14900, 5))
            else if id == "scale-03" then Some(Product(id, "Brew Scale", 4500, 30))
            else if id == "beans-04" then Some(Product(id, "Single Origin \U{2014} Yirgacheffe", 1800, 100))
            else if id == "mug-05" then Some(Product(id, "Walled Tasting Mug", 2200, 0))
            else None
  {
    hide FindProduct;
    FindInCons(KETTLE, [GRINDER, SCALE, BEANS, MUG], id);
    FindInCons(GRINDER, [SCALE, BEANS, MUG], id);
    FindInCons(SCALE, [BEANS, MUG], id);
    FindInCons(BEANS, [MUG], id);
    FindInCons(MUG, [], id);
    NothingToFind(id);
    assert PRODUCTS == [KETTLE] + [GRINDER, SCALE, BEANS, MUG];
    assert [GRINDER] + [SCALE, BEANS, MUG] == [GRINDER, SCALE, BEANS, MUG];
    assert [SCALE] + [BEANS, MUG] == [SCALE, BEANS, MUG] && [BEANS] + [MUG] == [BEANS, MUG] && [MUG] + [] == [MUG];
  }

  const SEEDED_CART: seq<Line> := [Line("scale-03", 1), Line("beans-04", 1)]

  lemma TwoLines(ps: Catalogue, a: Line, b: Line, p: Product, q: Product)
    requires FindProduct(ps, a.productId) == Some(p) && FindProduct(ps, b.productId) == Some(q)
    ensures var x, y := Price(p.priceCents, a.quantity), Price(q.priceCents, b.quantity);
            && SubtotalCents(ps, [a, b]) == x + y
            && CheapestLineCents(ps, [a, b]) == Some(if y < x then y else x)
  {
    hide Price;
    var lines := [a, b];
    assert lines[..1] == [a] && [a][..0] == [] && lines[1..] == [b] && [b][1..] == [];
    assert SubtotalCents(ps, [a]) == Price(p.priceCents, a.quantity);
    assert CheapestLineCents(ps, [b]) == Some(Price(q.priceCents, b.quantity));
  }

  lemma SeededTotals(bug: bool)
    ensures TotalsFor(PRODUCTS, SEEDED_CART, bug) == Totals(6300, 700, 504, Cents(if bug then 5704 else 7504))
  {
    ShippedPrices();
    hide FindProduct, SubtotalCents, CheapestLineCents;
    TwoLines(PRODUCTS, SEEDED_CART[0], SEEDED_CART[1],
             FindProduct(PRODUCTS, "scale-03").value, FindProduct(PRODUCTS, "beans-04").value);
  }

  /** The seeded test's own cart, one scale and one bag of beans: 57.04 with the bug and 75.04 without. */
  lemma SeededCart(bug: bool)
    ensures var t := TotalsFor(PRODUCTS, SEEDED_CART, bug);
            && t == Totals(6300, 700, 504, Cents(if bug then 5704 else 7504))
            && (SeededCheck(t) <==> !bug)
            && FormatAmount(t.total) == (if bug then "$57.04" else "$75.04")
  {
    hide TotalsFor, SeededCheck;
    assert Decimal(57) == "57" && Decimal(75) == "75";
    SeededTotals(bug);
    SeededCheckSums(TotalsFor(PRODUCTS, SEEDED_CART, bug));
  }
}
