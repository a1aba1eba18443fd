/** The currency directory the core consumes: a canonical code resolves to a
    currency with a number of decimal places. Identifiers are matched
    case-insensitively by upper-casing them first. */
module Currencies {

  import opened Errors
  import opened Rounding

  function UpChar(c: char): (u: char)
    ensures ('a' <= c <= 'z') ==> u as int == c as int - 32
    ensures !('a' <= c <= 'z') ==> u == c
  {
    if 'a' <= c <= 'z' then (c as int - 32) as char else c
  }

  /** ASCII upper-casing of an identifier (`"usd"` becomes `"USD"`). */
  function Upcase(s: string): (u: string)
    ensures |u| == |s|
    ensures forall i :: 0 <= i < |s| ==> u[i] == UpChar(s[i])
  {
    if s == [] then [] else [UpChar(s[0])] + Upcase(s[1..])
  }

  lemma UpcaseIdempotent(s: string)
    ensures Upcase(Upcase(s)) == Upcase(s)
  {
    assert forall i :: 0 <= i < |s| ==> UpChar(UpChar(s[i])) == UpChar(s[i]);
  }

  predicate NoUnderscore(s: string) {
    forall i :: 0 <= i < |s| ==> s[i] != '_'
  }

  /** A canonical currency code: upper case and free of '_' (ISO 4217 codes
      are three capital letters), so that "FROM_TO_TO" keys can be split. */
  predicate IsCode(s: string) {
    NoUnderscore(s) && Upcase(s) == s
  }

  /** Upper-casing keeps an underscore-free identifier underscore-free and
      makes it canonical. */
  lemma UpcaseMakesCode(s: string)
    requires NoUnderscore(s)
    ensures IsCode(Upcase(s))
  {
    UpcaseIdempotent(s);
  }

  /** The directory: canonical code to decimal places. */
  type Directory = d: map<string, nat> | forall code :: code in d ==> IsCode(code)
    witness map[]

  /** A resolved currency. Currencies resolved from one directory are equal
      iff their codes are, since the directory fixes each code's places
      (ResolvedAlikeIffSameCode). */
  datatype Currency = Currency(code: string, decimalPlaces: nat)

  /** `Currency.wrap`: resolves an identifier, case-insensitively. */
  function Wrap(dir: Directory, id: string): (r: Result<Currency>)
    ensures r.Ok? <==> Upcase(id) in dir
    ensures r.Ok? ==> r.value.code == Upcase(id) && r.value.decimalPlaces == dir[Upcase(id)]
    ensures r.Ok? ==> IsCode(r.value.code)
    ensures r.Err? ==> r.error == UnknownCurrency
  {
    var code := Upcase(id);
    if code in dir then Ok(Currency(code, dir[code])) else Err(UnknownCurrency)
  }

  /** Identifiers that differ only in letter case resolve alike. */
  lemma WrapIgnoresCase(dir: Directory, id: string, id': string)
    requires Upcase(id) == Upcase(id')
    ensures Wrap(dir, id) == Wrap(dir, id')
  {
  }

  /** Two identifiers resolve to the same currency iff they upper-case to
      the same code. */
  lemma ResolvedAlikeIffSameCode(dir: Directory, id: string, id': string)
    requires Wrap(dir, id).Ok? && Wrap(dir, id').Ok?
    ensures Wrap(dir, id) == Wrap(dir, id') <==> Wrap(dir, id).value.code == Wrap(dir, id').value.code
  {
  }

  /** Upper-casing distributes over concatenation. */
  lemma UpcaseAppend(a: string, b: string)
    ensures Upcase(a + b) == Upcase(a) + Upcase(b)
  {
    var l, r := Upcase(a + b), Upcase(a) + Upcase(b);
    forall i | 0 <= i < |l|
      ensures l[i] == r[i]
    {
      if i < |a| {
        assert (a + b)[i] == a[i];
      } else {
        assert (a + b)[i] == b[i - |a|];
      }
    }
  }

  /** A resolved currency's own code resolves back to it. */
  lemma WrapOfCode(dir: Directory, id: string)
    requires Wrap(dir, id).Ok?
    ensures Wrap(dir, Wrap(dir, id).value.code) == Wrap(dir, id)
  {
    UpcaseIdempotent(id);
  }
}
