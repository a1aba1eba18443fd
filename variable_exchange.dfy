/** `Money::Bank::VariableExchange`: a bank holding a table of exchange
    rates keyed by canonical currency pairs. It converts by multiplying the
    amount by the stored rate and rounding with the base bank's rule, and
    it exports and imports its table as a flat map keyed "FROM_TO_TO". */
module VariableExchange {

  import opened Errors
  import opened Rounding
  import opened Currencies
  import opened MoneyArithmetic
  import opened BankBase

  /** An ordered (from, to) pair of currency codes. */
  type Pair = (string, string)

  /** The rate store's contents. */
  type Table = map<Pair, real>

  /** Every pair in the table is a pair of canonical codes, as the store only
      ever receives resolved, upper-cased codes. */
  predicate CanonicalTable(t: Table) {
    forall p :: p in t ==> IsCode(p.0) && IsCode(p.1)
  }

  const Separator: string := "_TO_"

  /** The export key of a pair. */
  function Key(p: Pair): string {
    p.0 + Separator + p.1
  }

  /** The index of the first '_' in `s`, or `|s|` when there is none. */
  function FirstUnderscore(s: string): (i: nat)
    ensures i <= |s|
    ensures NoUnderscore(s[..i])
    ensures i < |s| ==> s[i] == '_'
  {
    if s == [] then 0
    else if s[0] == '_' then 0
    else
      var j := FirstUnderscore(s[1..]);
      assert s[..j + 1] == [s[0]] + s[1..][..j];
      j + 1
  }

  /** `k` is `a`, the "_TO_" separator and `b`, with no '_' in either part. */
  predicate Splits(k: string, a: string, b: string) {
    NoUnderscore(a) && NoUnderscore(b) && k == a + Separator + b
  }

  /** `k` holds the separator at `i`, and no '_' after it. */
  predicate SeparatorAt(k: string, i: nat) {
    i + |Separator| <= |k| && k[i..i + |Separator|] == Separator && NoUnderscore(k[i + |Separator|..])
  }

  /** Splits an imported key at its "_TO_" separator. The part before it is
      everything up to the first '_', the part after it must hold no '_';
      both are upper-cased, as the store does with the codes it receives.
      Any other key is malformed. Which keys parse, and to what, is
      ParseKeyOfSplit. */
  function ParseKey(k: string): (r: Option<Pair>)
    ensures r.Some? ==> IsCode(r.value.0) && IsCode(r.value.1)
    ensures r.Some? ==> Key(r.value) == Upcase(k)
  {
    var i := FirstUnderscore(k);
    if SeparatorAt(k, i) then
      CutAtSeparator(k, i);
      UpcaseMakesCode(k[..i]);
      UpcaseMakesCode(k[i + |Separator|..]);
      KeyOfUpcased(k[..i], k[i + |Separator|..]);
      Some((Upcase(k[..i]), Upcase(k[i + |Separator|..])))
    else
      None
  }

  lemma CutAtSeparator(k: string, i: nat)
    requires SeparatorAt(k, i)
    ensures k == k[..i] + Separator + k[i + |Separator|..]
  {
    assert k == k[..i] + k[i..i + |Separator|] + k[i + |Separator|..];
  }

  /** The key of two upper-cased parts is the upper-cased key. */
  lemma KeyOfUpcased(a: string, b: string)
    ensures Key((Upcase(a), Upcase(b))) == Upcase(a + Separator + b)
  {
    UpcaseAppend(a, Separator);
    UpcaseAppend(a + Separator, b);
    assert Upcase(Separator) == Separator;
  }

  /** A key made of two '_'-free parts around "_TO_" parses to the two
      parts, upper-cased. */
  lemma ParseKeyOfSplit(k: string, a: string, b: string)
    requires Splits(k, a, b)
    ensures ParseKey(k) == Some((Upcase(a), Upcase(b)))
  {
    var n := |a|;
    assert k[..n] == a;
    assert k[n..n + 4] == Separator;
    assert k[n + 4..] == b;
    FirstUnderscoreAt(k, n);
  }

  /** A key that parses is two '_'-free parts around "_TO_". */
  lemma ParsedKeySplits(k: string)
    requires ParseKey(k).Some?
    ensures exists a, b :: Splits(k, a, b)
  {
    var i := FirstUnderscore(k);
    CutAtSeparator(k, i);
    assert Splits(k, k[..i], k[i + |Separator|..]);
  }

  /** A key parses iff it is two '_'-free parts around "_TO_". */
  lemma ParseKeyAccepts(k: string)
    ensures ParseKey(k).Some? <==> exists a, b :: Splits(k, a, b)
  {
    if ParseKey(k).Some? {
      ParsedKeySplits(k);
    } else if exists a, b :: Splits(k, a, b) {
      var a, b :| Splits(k, a, b);
      ParseKeyOfSplit(k, a, b);
    }
  }

  /** Reading back the key of a pair of canonical codes gives the pair. */
  lemma ParseKeyOfKey(p: Pair)
    requires IsCode(p.0) && IsCode(p.1)
    ensures ParseKey(Key(p)) == Some(p)
  {
    ParseKeyOfSplit(Key(p), p.0, p.1);
  }

  /** When `s[..n]` holds no '_' and `s[n]` is one, `n` is the first '_'. */
  lemma {:induction false} FirstUnderscoreAt(s: string, n: nat)
    requires n < |s| && s[n] == '_' && NoUnderscore(s[..n])
    ensures FirstUnderscore(s) == n
  {
    if n > 0 {
      assert s[0] == s[..n][0];
      assert s[1..][..n - 1] == s[..n][1..];
      FirstUnderscoreAt(s[1..], n - 1);
    }
  }

  /** Distinct pairs of canonical codes get distinct keys. */
  lemma KeyIsInjective(p: Pair, q: Pair)
    requires IsCode(p.0) && IsCode(p.1) && IsCode(q.0) && IsCode(q.1)
    ensures Key(p) == Key(q) <==> p == q
  {
    ParseKeyOfKey(p);
    ParseKeyOfKey(q);
  }

  /** `get_rate(from, to)`: both identifiers are resolved first (failing with
      UnknownCurrency); a pair with no stored rate gives nil. */
  function Lookup(t: Table, dir: Directory, from: string, to: string): (r: Result<Option<real>>)
    ensures r.Err? <==> Upcase(from) !in dir || Upcase(to) !in dir
    ensures r.Err? ==> r.error == UnknownCurrency
    ensures r.Ok? ==> (r.value.Some? <==> (Upcase(from), Upcase(to)) in t)
    ensures r.Ok? && r.value.Some? ==> r.value.value == t[(Upcase(from), Upcase(to))]
  {
    match (Wrap(dir, from), Wrap(dir, to))
    case (Ok(c1), Ok(c2)) =>
      if (c1.code, c2.code) in t then Ok(Some(t[(c1.code, c2.code)])) else Ok(None)
    case (Err(e), _) => Err(e)
    case (_, Err(e)) => Err(e)
  }

  /** `set_rate(from, to, rate)` (and `add_rate`, which delegates to it):
      both identifiers are resolved, then the canonical pair is set. */
  function Store(t: Table, dir: Directory, from: string, to: string, rate: real): (r: Result<Table>)
    requires CanonicalTable(t)
    ensures r.Err? <==> Upcase(from) !in dir || Upcase(to) !in dir
    ensures r.Err? ==> r.error == UnknownCurrency
    ensures r.Ok? ==> CanonicalTable(r.value)
    ensures r.Ok? ==> r.value == t[(Upcase(from), Upcase(to)) := rate]
  {
    match (Wrap(dir, from), Wrap(dir, to))
    case (Ok(c1), Ok(c2)) => Ok(t[(c1.code, c2.code) := rate])
    case (Err(e), _) => Err(e)
    case (_, Err(e)) => Err(e)
  }

  /** After a rate is set, it is read back for the same pair under any
      spelling of the codes, and every other pair keeps its rate. */
  lemma LookupAfterStore(t: Table, dir: Directory, from: string, to: string, rate: real,
                         from': string, to': string)
    requires CanonicalTable(t) && Store(t, dir, from, to, rate).Ok?
    ensures Upcase(from') == Upcase(from) && Upcase(to') == Upcase(to) ==>
      Lookup(Store(t, dir, from, to, rate).value, dir, from', to') == Ok(Some(rate))
    ensures (Upcase(from'), Upcase(to')) != (Upcase(from), Upcase(to)) ==>
      Lookup(Store(t, dir, from, to, rate).value, dir, from', to') == Lookup(t, dir, from', to')
  {
  }

  /** The exact value of `from` at `rate`, before any rounding. */
  function Converted(from: Money, rate: real): real {
    Amount(from) * rate
  }

  /** `exchange_with(from, to, mode, &block)`: the target is resolved (an
      unknown one fails with UnknownCurrency); a Money already in it is
      returned as it is; otherwise the amount times the stored rate is
      rounded by the base rule and becomes a Money of the receiver's class
      in the target currency. A missing rate fails with UnknownRate. */
  function Exchange(t: Table, dir: Directory, stored: Option<Rounder>, from: Money, target: string,
                    mode: Option<RoundingMode>, block: Option<Block>, moneyMode: RoundingMode): (r: Result<Money>)
    ensures Upcase(target) !in dir ==> r == Err(UnknownCurrency)
    ensures Upcase(target) in dir && Wrap(dir, target).value == from.currency ==> r == Ok(from)
    ensures r.Err? ==> r.error == UnknownCurrency || r.error == UnknownRate
    ensures r.Err? && r.error == UnknownRate ==>
      Wrap(dir, target).Ok? && (from.currency.code, Upcase(target)) !in t
    ensures Wrap(dir, target).Ok? && Wrap(dir, target).value != from.currency ==>
      (r.Ok? <==> (from.currency.code, Wrap(dir, target).value.code) in t)
    ensures Wrap(dir, target).Ok? && Wrap(dir, target).value != from.currency ==>
      (from.currency.code, Wrap(dir, target).value.code) !in t ==> r == Err(UnknownRate)
    ensures r.Ok? && Wrap(dir, target).value != from.currency ==>
      var c := Wrap(dir, target).value;
      && (from.currency.code, c.code) in t
      && var rate := t[(from.currency.code, c.code)];
      && r.value.currency == c && r.value.kind == from.kind
      && IsRounding(InSubunits(Round(Converted(from, rate), c, mode, block, stored), c),
                    moneyMode, r.value.fractional)
  {
    match Wrap(dir, target)
    case Err(e) => Err(e)
    case Ok(c) =>
      if from.currency == c then Ok(from)
      else if (from.currency.code, c.code) !in t then Err(UnknownRate)
      else
        var rate := t[(from.currency.code, c.code)];
        Ok(FromAmount(Round(Converted(from, rate), c, mode, block, stored), c, from.kind, moneyMode))
  }

  /** With a rounding mode in force, the exchanged Money is the mode's
      rounding of the exact product to the target's subunits: the
      constructor's own rounding adds nothing. */
  lemma ExchangeRoundsOnce(t: Table, dir: Directory, stored: Option<Rounder>, from: Money, target: string,
                           m: RoundingMode, moneyMode: RoundingMode)
    requires Wrap(dir, target).Ok? && Wrap(dir, target).value != from.currency
    requires (from.currency.code, Wrap(dir, target).value.code) in t
    ensures var c := Wrap(dir, target).value;
      var rate := t[(from.currency.code, c.code)];
      Exchange(t, dir, stored, from, target, Some(m), None, moneyMode)
        == Ok(Money(RoundToInt(InSubunits(Converted(from, rate), c), m), c, from.kind))
  {
    var c := Wrap(dir, target).value;
    var v := Converted(from, t[(from.currency.code, c.code)]);
    assert Exchange(t, dir, stored, from, target, Some(m), None, moneyMode)
        == Ok(FromAmount(Round(v, c, Some(m), None, stored), c, from.kind, moneyMode));
    ModeRoundsToPlaces(v, c, Some(m), stored, m);
    FromRoundedAmount(v, c, from.kind, m, moneyMode);
  }

  /** Without any rounding strategy, an exact product with no digits beyond
      the target's subunits is kept exactly, however large it is. */
  lemma ExchangeIsExact(t: Table, dir: Directory, from: Money, target: string, moneyMode: RoundingMode)
    requires Wrap(dir, target).Ok? && Wrap(dir, target).value != from.currency
    requires (from.currency.code, Wrap(dir, target).value.code) in t
    requires var c := Wrap(dir, target).value;
      IsIntegral(InSubunits(Converted(from, t[(from.currency.code, c.code)]), c))
    ensures var c := Wrap(dir, target).value;
      var r := Exchange(t, dir, None, from, target, None, None, moneyMode);
      r.Ok? && Amount(r.value) == Converted(from, t[(from.currency.code, c.code)])
  {
    var c := Wrap(dir, target).value;
    var v := Converted(from, t[(from.currency.code, c.code)]);
    assert Round(v, c, None, None, None) == v;
    assert Exchange(t, dir, None, from, target, None, None, moneyMode) == Ok(FromAmount(v, c, from.kind, moneyMode));
  }

  /** The export formats the bank knows. */
  predicate KnownFormat(format: string) {
    format == "json" || format == "ruby" || format == "yaml"
  }

  /** `export_rates`: the table as a flat map with one "FROM_TO_TO" entry per
      stored pair. */
  function Export(t: Table): (m: map<string, real>)
    requires CanonicalTable(t)
    ensures forall p :: p in t ==> Key(p) in m && m[Key(p)] == t[p]
    ensures forall k :: k in m ==> exists p :: p in t && Key(p) == k
  {
    forall p, q | p in t && q in t && Key(p) == Key(q) ensures p == q {
      KeyIsInjective(p, q);
    }
    map p | p in t :: Key(p) := t[p]
  }

  /** `import_rates`: the entries are applied in order, a later one for the
      same pair overriding an earlier one. A key that is not "FROM_TO_TO"
      makes the whole import fail. */
  function ImportEntries(t: Table, data: seq<(string, real)>): (r: Option<Table>)
    requires CanonicalTable(t)
    ensures r.Some? ==> CanonicalTable(r.value)
    ensures r.None? <==> exists i :: 0 <= i < |data| && ParseKey(data[i].0).None?
    decreases |data|
  {
    if data == [] then Some(t)
    else
      match ParseKey(data[0].0)
      case None => None
      case Some(p) =>
        var r := ImportEntries(t[p := data[0].1], data[1..]);
        assert forall i :: 0 < i < |data| ==> data[i] == data[1..][i - 1];
        assert forall i :: 0 <= i < |data| - 1 ==> data[1..][i] == data[i + 1];
        r
  }

  /** The pairs an import touches. */
  function Pairs(data: seq<(string, real)>): set<Pair> {
    if data == [] then {}
    else (match ParseKey(data[0].0) case None => {} case Some(p) => {p}) + Pairs(data[1..])
  }

  lemma {:induction false} PairsHasEveryEntry(data: seq<(string, real)>, i: nat)
    requires i < |data| && ParseKey(data[i].0).Some?
    ensures ParseKey(data[i].0).value in Pairs(data)
  {
    if i > 0 {
      assert data[1..][i - 1] == data[i];
      PairsHasEveryEntry(data[1..], i - 1);
    }
  }

  /** The entries of `data` all agree with the table `t`. */
  predicate AgreesWith(data: seq<(string, real)>, t: Table) {
    forall i :: 0 <= i < |data| ==>
      ParseKey(data[i].0).Some? && ParseKey(data[i].0).value in t && t[ParseKey(data[i].0).value] == data[i].1
  }

  /** The part of `t` on the pairs in `s`. */
  function Restrict(t: Table, s: set<Pair>): (r: Table)
    ensures forall p :: p in r <==> p in t && p in s
    ensures forall p :: p in r ==> r[p] == t[p]
  {
    map p | p in t && p in s :: t[p]
  }

  lemma OverlayStep(base: Table, t: Table, p: Pair, s: set<Pair>)
    requires p in t
    ensures base[p := t[p]] + Restrict(t, s) == base + Restrict(t, {p} + s)
  {
    var left, right := base[p := t[p]] + Restrict(t, s), base + Restrict(t, {p} + s);
    assert forall q :: q in left <==> q in right;
    assert forall q :: q in left ==> left[q] == right[q];
  }

  /** Importing entries that agree with `t` overlays `t`, restricted to the
      pairs the entries name, on the current table. */
  lemma {:induction false} ImportOfAgreeingEntries(base: Table, t: Table, data: seq<(string, real)>)
    requires CanonicalTable(base) && AgreesWith(data, t)
    ensures ImportEntries(base, data) == Some(base + Restrict(t, Pairs(data)))
    decreases |data|
  {
    if data == [] {
      assert Restrict(t, Pairs(data)) == map[];
      assert base + map[] == base;
    } else {
      var p := ParseKey(data[0].0).value;
      var rest := data[1..];
      assert data[0].1 == t[p];
      assert ImportEntries(base, data) == ImportEntries(base[p := t[p]], rest);
      assert AgreesWith(rest, t) by {
        forall i | 0 <= i < |rest| ensures rest[i] == data[i + 1] { }
      }
      ImportOfAgreeingEntries(base[p := t[p]], t, rest);
      assert Pairs(data) == {p} + Pairs(rest);
      OverlayStep(base, t, p, Pairs(rest));
    }
  }

  /** A listing of an export: every entry is one of the export's, and every
      key of the export is listed at least once. */
  predicate ListsExport(data: seq<(string, real)>, t: Table)
    requires CanonicalTable(t)
  {
    && (forall i :: 0 <= i < |data| ==> data[i].0 in Export(t) && Export(t)[data[i].0] == data[i].1)
    && (forall k :: k in Export(t) ==> exists i :: 0 <= i < |data| && data[i].0 == k)
  }

  lemma ListedExportAgrees(t: Table, data: seq<(string, real)>)
    requires CanonicalTable(t) && ListsExport(data, t)
    ensures AgreesWith(data, t)
  {
    var e := Export(t);
    forall i | 0 <= i < |data|
      ensures ParseKey(data[i].0).Some? && ParseKey(data[i].0).value in t
           && t[ParseKey(data[i].0).value] == data[i].1
    {
      assert data[i].0 in e;
      var p :| p in t && Key(p) == data[i].0;
      ParseKeyOfKey(p);
      assert e[Key(p)] == t[p];
    }
  }

  lemma ListedExportCovers(t: Table, data: seq<(string, real)>)
    requires CanonicalTable(t) && ListsExport(data, t)
    ensures Restrict(t, Pairs(data)) == t
  {
    forall p | p in t ensures p in Pairs(data) {
      ListedPair(t, data, p);
    }
    var r := Restrict(t, Pairs(data));
    assert forall p :: p in r <==> p in t;
  }

  lemma ListedPair(t: Table, data: seq<(string, real)>, p: Pair)
    requires CanonicalTable(t) && ListsExport(data, t) && p in t
    ensures p in Pairs(data)
  {
    assert Key(p) in Export(t);
    var i :| 0 <= i < |data| && data[i].0 == Key(p);
    ParseKeyOfKey(p);
    PairsHasEveryEntry(data, i);
  }

  /** Import after export: importing any listing of an export of `t` (each
      entry once or more, in any order) sets every rate of `t` and leaves
      the other pairs alone. */
  lemma ImportOfExport(base: Table, t: Table, data: seq<(string, real)>)
    requires CanonicalTable(base) && CanonicalTable(t) && ListsExport(data, t)
    ensures ImportEntries(base, data) == Some(base + t)
  {
    ListedExportAgrees(t, data);
    ImportOfAgreeingEntries(base, t, data);
    ListedExportCovers(t, data);
  }

  /** The bank. Its rate store is a table changed in place; the currency
      directory it resolves identifiers against is fixed at creation. */
  class Bank {
    var rates: Table
    var roundingMethod: Option<Rounder>
    const dir: Directory

    ghost predicate Valid()
      reads this
    {
      CanonicalTable(rates)
    }

    /** `VariableExchange.new(&block)`: an empty store; the block, if any,
        becomes the stored rounding method. */
    constructor(dir: Directory, block: Option<Block>)
      ensures Valid()
      ensures this.dir == dir && rates == map[]
      ensures block.Some? ==> roundingMethod == Some(ByBlock(block.value))
      ensures block.None? ==> roundingMethod == None
    {
      this.dir := dir;
      rates := map[];
      roundingMethod := if block.Some? then Some(ByBlock(block.value)) else None;
    }

    /** `rounding_method=`: replaces the stored rounding method, including
        the one given at creation. */
    method SetRoundingMethod(rounder: Option<Rounder>)
      modifies this
      ensures roundingMethod == rounder && rates == old(rates)
    {
      roundingMethod := rounder;
    }

    /** `set_rate` and `add_rate`: returns the rate that was stored. */
    method SetRate(from: string, to: string, rate: real) returns (r: Result<real>)
      requires Valid()
      modifies this
      ensures Valid() && roundingMethod == old(roundingMethod)
      ensures r.Err? <==> Store(old(rates), dir, from, to, rate).Err?
      ensures r.Err? ==> r.error == UnknownCurrency && rates == old(rates)
      ensures r.Ok? ==> r.value == rate && rates == Store(old(rates), dir, from, to, rate).value
    {
      match Store(rates, dir, from, to, rate)
      case Err(e) =>
        r := Err(e);
      case Ok(t) =>
        rates := t;
        r := Ok(rate);
    }

    /** `get_rate`. */
    method GetRate(from: string, to: string) returns (r: Result<Option<real>>)
      ensures r == Lookup(rates, dir, from, to)
    {
      r := Lookup(rates, dir, from, to);
    }

    /** `exchange_with`, rounding with the stored method unless the call
        gives a block or a mode. */
    method ExchangeWith(from: Money, target: string, mode: Option<RoundingMode>, block: Option<Block>,
                        moneyMode: RoundingMode) returns (r: Result<Money>)
      ensures r == Exchange(rates, dir, roundingMethod, from, target, mode, block, moneyMode)
    {
      r := Exchange(rates, dir, roundingMethod, from, target, mode, block, moneyMode);
    }

    /** `export_rates(format)`: the flat key map the codec would serialise,
        or UnknownRateFormat. */
    method ExportRates(format: string) returns (r: Result<map<string, real>>)
      requires Valid()
      ensures !KnownFormat(format) ==> r == Err(UnknownRateFormat)
      ensures KnownFormat(format) ==> r == Ok(Export(rates))
    {
      if !KnownFormat(format) {
        return Err(UnknownRateFormat);
      }
      r := Ok(Export(rates));
    }

    /** `import_rates(format, data)`, with `data` the decoded key map in its
        order. The entries are staged and the store is replaced once at the
        end, so a failed import leaves it as it was. */
    method ImportRates(format: string, data: seq<(string, real)>) returns (r: Result<()>)
      requires Valid()
      modifies this
      ensures Valid() && roundingMethod == old(roundingMethod)
      ensures !KnownFormat(format) ==> r == Err(UnknownRateFormat) && rates == old(rates)
      ensures KnownFormat(format) && ImportEntries(old(rates), data).None? ==>
        r == Err(MalformedRateKey) && rates == old(rates)
      ensures KnownFormat(format) && ImportEntries(old(rates), data).Some? ==>
        r == Ok(()) && rates == ImportEntries(old(rates), data).value
    {
      if !KnownFormat(format) {
        return Err(UnknownRateFormat);
      }
      var staged := rates;
      var i := 0;
      while i < |data|
        invariant 0 <= i <= |data|
        invariant CanonicalTable(staged)
        invariant ImportEntries(old(rates), data) == ImportEntries(staged, data[i..])
      {
        assert data[i..][0] == data[i] && data[i..][1..] == data[i + 1..];
        match ParseKey(data[i].0)
        case None =>
          return Err(MalformedRateKey);
        case Some(p) =>
          staged := staged[p := data[i].1];
        i := i + 1;
      }
      rates := staged;
      r := Ok(());
    }
  }
}
