/** The mock-record generator behind a cache miss: it turns one set of random
    draws per record into a record with a bank name, a street address and a
    list of services taken from fixed vocabularies. The draws themselves are
    inputs; the floating-point position arithmetic is not part of this model,
    so each draw carries its already-computed coordinates. */
module Generator {
  import opened Wrappers

  /** The fixed list of bank names a record's name is chosen from. */
  const BankNames: seq<string> := [
    "United Bank", "Citizens Financial", "First National", "Metro Credit Union",
    "Community Bank", "Urban Trust", "Heritage Bank", "Liberty Financial",
    "Capital One", "Chase", "Wells Fargo", "Bank of America"
  ]

  /** The fixed list of street names an address is built from. */
  const StreetNames: seq<string> := [
    "Main St", "Oak Ave", "Maple Rd", "Broadway", "Park Ave",
    "Washington St", "Market St", "State St", "Water St", "Commerce Way"
  ]

  /** The fixed vocabulary of services a record offers a sample of. */
  const AllServices: seq<string> := [
    "Cash Withdrawal", "Cash Deposit", "Cardless Withdrawal",
    "Balance Inquiry", "Check Deposit", "Bill Payment"
  ]

  /** The suffix appended to the bank name to form a record's name. */
  const NameSuffix: string := " ATM"

  /** One generated record, before the store gives it an id and a timestamp. */
  datatype AtmData = AtmData(name: string, lat: real, lng: real, address: string, services: seq<string>)

  /** The random choices made for one record: its (already offset) position,
      the index of its bank, its street number, the index of its street and the
      indices of the services sampled without replacement, in sample order. */
  datatype Draw = Draw(lat: real, lng: real, bank: nat, streetNumber: nat, street: nat, services: seq<nat>)

  predicate NoDuplicates<T(==)>(s: seq<T>) {
    forall i, j :: 0 <= i < j < |s| ==> s[i] != s[j]
  }

  /** The ranges the random module guarantees for one record's draws:
      `choice` over each list, `randint(1, 999)`, `randint(2, 4)` services
      and `sample`, which never picks an index twice. */
  predicate ValidDraw(d: Draw) {
    && d.bank < |BankNames|
    && 1 <= d.streetNumber <= 999
    && d.street < |StreetNames|
    && 2 <= |d.services| <= 4
    && NoDuplicates(d.services)
    && forall i :: 0 <= i < |d.services| ==> d.services[i] < |AllServices|
  }

  // ---------------------------------------------------------------------------
  // Decimal numerals, as the address's f-string prints the street number

  predicate IsDigit(c: char) { '0' <= c <= '9' }

  predicate AllDigits(s: string) {
    forall i :: 0 <= i < |s| ==> IsDigit(s[i])
  }

  function DigitChar(d: nat): char
    requires d < 10
  {
    "0123456789"[d]
  }

  function DigitValue(c: char): nat
    requires IsDigit(c)
  {
    c as int - '0' as int
  }

  lemma DigitCharValue(d: nat)
    requires d < 10
    ensures IsDigit(DigitChar(d)) && DigitValue(DigitChar(d)) == d
  {
  }

  lemma ValueDigitChar(c: char)
    requires IsDigit(c)
    ensures DigitValue(c) < 10 && DigitChar(DigitValue(c)) == c
  {
  }

  /** A numeral as Python's `str` writes one: at least one digit, and no
      leading zero unless the numeral is "0" itself. */
  predicate Canonical(s: string) {
    |s| >= 1 && AllDigits(s) && (s[0] == '0' ==> |s| == 1)
  }

  /** The decimal numeral of a non-negative integer, as Python's `str` writes it. */
  function DecimalString(n: nat): (s: string)
    ensures Canonical(s)
    ensures s[0] == '0' <==> n == 0
  {
    DigitCharValue(n % 10);
    if n < 10 then [DigitChar(n)] else DecimalString(n / 10) + [DigitChar(n % 10)]
  }

  /** The value of a string of decimal digits. */
  function ParseDecimal(s: string): nat
    requires AllDigits(s)
  {
    if s == [] then 0 else 10 * ParseDecimal(s[..|s| - 1]) + DigitValue(s[|s| - 1])
  }

  lemma {:induction false} DecimalRoundTrip(n: nat)
    ensures ParseDecimal(DecimalString(n)) == n
  {
    var s := DecimalString(n);
    DigitCharValue(n % 10);
    if n >= 10 {
      assert s[..|s| - 1] == DecimalString(n / 10);
      DecimalRoundTrip(n / 10);
    }
  }

  lemma DivModDigit(q: nat, d: nat)
    requires d < 10
    ensures (10 * q + d) / 10 == q && (10 * q + d) % 10 == d
  {
  }

  /** A numeral that starts with a non-zero digit has a non-zero value. */
  lemma {:induction false} ParseDecimalPositive(s: string)
    requires |s| >= 1 && AllDigits(s) && s[0] != '0'
    ensures ParseDecimal(s) >= 1
  {
    if |s| > 1 {
      ParseDecimalPositive(s[..|s| - 1]);
    } else {
      ValueDigitChar(s[0]);
    }
  }

  /** Printing a number of two or more digits prints its leading part, then its last digit. */
  lemma DecimalStringStep(q: nat, d: nat)
    requires q >= 1 && d < 10
    ensures DecimalString(10 * q + d) == DecimalString(q) + [DigitChar(d)]
  {
    DivModDigit(q, d);
  }

  /** Reading a numeral reads its leading part, then its last digit. */
  lemma ParseDecimalStep(p: string, c: char)
    requires AllDigits(p) && IsDigit(c)
    ensures AllDigits(p + [c]) && ParseDecimal(p + [c]) == 10 * ParseDecimal(p) + DigitValue(c)
  {
    assert (p + [c])[..|p|] == p;
  }

  /** The converse of `DecimalRoundTrip`: a canonical numeral is the one
      printed for its own value. */
  lemma {:induction false} CanonicalRoundTrip(s: string)
    requires Canonical(s)
    ensures DecimalString(ParseDecimal(s)) == s
  {
    var last := s[|s| - 1];
    ValueDigitChar(last);
    if |s| > 1 {
      var p := s[..|s| - 1];
      assert s == p + [last];
      assert Canonical(p) by {
        assert forall i :: 0 <= i < |p| ==> p[i] == s[i];
      }
      ParseDecimalStep(p, last);
      ParseDecimalPositive(p);
      CanonicalRoundTrip(p);
      DecimalStringStep(ParseDecimal(p), DigitValue(last));
    }
  }

  // ---------------------------------------------------------------------------
  // Addresses: "<street number> <street>"

  /** The position of the first space in `s`, or `|s|` if there is none. */
  function IndexOfSpace(s: string): (k: nat)
    ensures k <= |s|
    ensures k < |s| ==> s[k] == ' '
    ensures forall i :: 0 <= i < k ==> s[i] != ' '
  {
    if s == [] || s[0] == ' ' then 0 else 1 + IndexOfSpace(s[1..])
  }

  function FormatAddress(number: nat, street: string): string {
    DecimalString(number) + " " + street
  }

  /** Reads an address back: a canonical numeral, one space, then the street. */
  function ParseAddress(a: string): Option<(nat, string)> {
    var k := IndexOfSpace(a);
    if k == |a| || !Canonical(a[..k]) then None
    else Some((ParseDecimal(a[..k]), a[k + 1..]))
  }

  lemma {:induction false} AddressRoundTrip(number: nat, street: string)
    ensures ParseAddress(FormatAddress(number, street)) == Some((number, street))
  {
    var d := DecimalString(number);
    var a := FormatAddress(number, street);
    var k := IndexOfSpace(a);
    assert a[|d|] == ' ';
    assert forall i :: 0 <= i < |d| ==> a[i] == d[i];
    assert k == |d|;
    assert a[..k] == d;
    assert a[k + 1..] == street;
    DecimalRoundTrip(number);
  }

  /** The converse of `AddressRoundTrip`: an address that parses is exactly the
      formatting of what it parses to, so a parse fixes the address. */
  lemma AddressParseFormats(a: string)
    requires ParseAddress(a).Some?
    ensures a == FormatAddress(ParseAddress(a).value.0, ParseAddress(a).value.1)
  {
    var k := IndexOfSpace(a);
    CanonicalRoundTrip(a[..k]);
    assert a == a[..k] + " " + a[k + 1..];
  }

  // ---------------------------------------------------------------------------
  // What every generated record looks like

  /** A bank-list entry followed by " ATM". */
  predicate WellFormedName(name: string) {
    && |name| >= |NameSuffix|
    && name[|name| - |NameSuffix|..] == NameSuffix
    && name[..|name| - |NameSuffix|] in BankNames
  }

  /** A street number in 1..999, one space, and a street-list entry. */
  predicate WellFormedAddress(address: string) {
    match ParseAddress(address)
    case None => false
    case Some((number, street)) => 1 <= number <= 999 && street in StreetNames
  }

  /** Two to four distinct entries of the service vocabulary. */
  predicate WellFormedServices(services: seq<string>) {
    && 2 <= |services| <= 4
    && NoDuplicates(services)
    && forall i :: 0 <= i < |services| ==> services[i] in AllServices
  }

  predicate WellFormed(a: AtmData) {
    WellFormedName(a.name) && WellFormedAddress(a.address) && WellFormedServices(a.services)
  }

  lemma AllServicesDistinct()
    ensures NoDuplicates(AllServices)
  {
    forall i, j | 0 <= i < j < |AllServices| ensures AllServices[i] != AllServices[j] {
      assert AllServices[i][..2] != AllServices[j][..2] || |AllServices[i]| != |AllServices[j]|
        || AllServices[i][5] != AllServices[j][5];
    }
  }

  /** The services named by a sample of vocabulary indices, in sample order. */
  function SampleServices(picks: seq<nat>): seq<string>
    requires forall i :: 0 <= i < |picks| ==> picks[i] < |AllServices|
  {
    seq(|picks|, i requires 0 <= i < |picks| => AllServices[picks[i]])
  }

  /** A sample of distinct vocabulary indices names two to four distinct services. */
  lemma SampleServicesWellFormed(picks: seq<nat>)
    requires 2 <= |picks| <= 4 && NoDuplicates(picks)
    requires forall i :: 0 <= i < |picks| ==> picks[i] < |AllServices|
    ensures WellFormedServices(SampleServices(picks))
  {
    AllServicesDistinct();
  }

  /** Builds one record from its draws (one iteration of the generator's loop). */
  function MakeAtm(d: Draw): (a: AtmData)
    requires ValidDraw(d)
    ensures WellFormed(a)
    ensures a.name[..|a.name| - |NameSuffix|] == BankNames[d.bank]
    ensures ParseAddress(a.address) == Some((d.streetNumber, StreetNames[d.street]))
    ensures |a.services| == |d.services|
    ensures forall i :: 0 <= i < |a.services| ==> a.services[i] == AllServices[d.services[i]]
    ensures a.lat == d.lat && a.lng == d.lng
  {
    AddressRoundTrip(d.streetNumber, StreetNames[d.street]);
    SampleServicesWellFormed(d.services);
    AtmData(BankNames[d.bank] + NameSuffix, d.lat, d.lng,
            FormatAddress(d.streetNumber, StreetNames[d.street]), SampleServices(d.services))
  }

  /** The records the generator returns for the given draws, one per draw. */
  function MockAtms(draws: seq<Draw>): seq<AtmData>
    requires forall i :: 0 <= i < |draws| ==> ValidDraw(draws[i])
  {
    seq(|draws|, i requires 0 <= i < |draws| => MakeAtm(draws[i]))
  }

  /** Every record the generator returns is well formed. */
  lemma MockAtmsWellFormed(draws: seq<Draw>)
    requires forall i :: 0 <= i < |draws| ==> ValidDraw(draws[i])
    ensures forall i :: 0 <= i < |draws| ==> WellFormed(MockAtms(draws)[i])
  {
  }

  /** The generator's loop: `count` iterations, each appending one record. */
  method GenerateMockAtms(count: nat, draws: seq<Draw>) returns (atms: seq<AtmData>)
    requires |draws| == count
    requires forall i :: 0 <= i < |draws| ==> ValidDraw(draws[i])
    ensures |atms| == count
    ensures atms == MockAtms(draws)
    ensures forall i :: 0 <= i < |atms| ==> WellFormed(atms[i])
  {
    atms := [];
    for i := 0 to count
      invariant atms == MockAtms(draws)[..i]
    {
      var atm := MakeAtm(draws[i]);
      assert MockAtms(draws)[..i + 1] == MockAtms(draws)[..i] + [atm];
      atms := atms + [atm];
    }
    assert MockAtms(draws)[..count] == MockAtms(draws);
    MockAtmsWellFormed(draws);
  }
}
