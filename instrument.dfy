/**
 * Tradable instruments (Instrument.hpp / Instrument.cpp).
 *
 * An instrument is a plain value once constructed. Its name lives in a
 * fixed 50-character buffer filled by `strncpy`, which is modelled here
 * character by character.
 */
module Instruments {

  datatype State = ACTIVE | INACTIVE | SUSPENDED | DELISTED

  /** Catalog identity of an instrument: (instrument id, MIC, trading currency). */
  datatype Key = Key(id: int, mic: string, currency: string)

  /** Size of the `char name[50]` buffer. */
  const NameCapacity: nat := 50

  datatype Instrument = Instrument(
    idinstrument: int,
    marketIdentificationCode: string,
    tradingCurrency: string,
    name: string,           // the whole 50-character buffer, NUL padding included
    issue: int,
    state: State,
    refprice: int,          // price units, see Orders.PriceScale
    idtradinggroup: int,
    lotsize: int,
    pricedecimal: int,
    currentorderid: int,    // carried, never interpreted
    currenttradeid: int,    // carried, never interpreted
    idapf: int)             // carried, never interpreted
  {
    function KeyOf(): Key {
      Key(idinstrument, marketIdentificationCode, tradingCurrency)
    }
  }

  /** The text a C string reads as: everything before its first NUL. */
  function CStr(s: string): (r: string)
    ensures |r| <= |s| && r == s[..|r|]
    ensures '\0' !in r
    ensures |r| < |s| ==> s[|r|] == '\0'
  {
    if s == [] then []
    else if s[0] == '\0' then []
    else [s[0]] + CStr(s[1..])
  }

  /** `n` NUL characters. */
  function Nuls(n: nat): (r: string)
    ensures |r| == n && forall k :: 0 <= k < n ==> r[k] == '\0'
  {
    if n == 0 then [] else ['\0'] + Nuls(n - 1)
  }

  /**
   * `strncpy(dst, src.c_str(), n)`: copies the characters of the C string
   * up to at most `n`, then pads with NULs up to `n`.
   */
  function Strncpy(src: string, n: nat): (r: string)
    ensures |r| == n
  {
    var c := CStr(src);
    if |c| >= n then c[..n] else c + Nuls(n - |c|)
  }

  /** The name buffer after `strncpy(name, src, 49); name[49] = '\0'`. */
  function NameBuffer(src: string): (buf: string)
    ensures |buf| == NameCapacity && buf[NameCapacity - 1] == '\0'
  {
    Strncpy(src, NameCapacity - 1) + ['\0']
  }

  /** The name a reader of the buffer sees: the input, cut at its first NUL and at 49 characters. */
  function Truncated(src: string): (r: string)
    ensures |r| < NameCapacity
  {
    var c := CStr(src);
    if |c| < NameCapacity then c else c[..NameCapacity - 1]
  }

  lemma {:induction false} CStrNoNul(s: string)
    requires '\0' !in s
    ensures CStr(s) == s
  {
    if s != [] {
      assert s[0] != '\0';
      assert '\0' !in s[1..];
      CStrNoNul(s[1..]);
      assert s == [s[0]] + s[1..];
    }
  }

  lemma {:induction false} CStrOfPadded(c: string, n: nat)
    requires '\0' !in c
    ensures CStr(c + Nuls(n) + ['\0']) == c
  {
    if c == [] {
      assert (c + Nuls(n) + ['\0'])[0] == '\0';
    } else {
      assert (c + Nuls(n) + ['\0'])[1..] == c[1..] + Nuls(n) + ['\0'];
      assert '\0' !in c[1..];
      CStrOfPadded(c[1..], n);
      assert c == [c[0]] + c[1..];
    }
  }

  /**
   * Reading the stored buffer back as a C string gives the input name cut at
   * its first NUL and at 49 characters; a short NUL-free name comes back unchanged.
   */
  lemma NameRoundTrip(src: string)
    ensures CStr(NameBuffer(src)) == Truncated(src)
    ensures |CStr(NameBuffer(src))| <= NameCapacity - 1
    ensures |src| < NameCapacity && '\0' !in src ==> CStr(NameBuffer(src)) == src
  {
    var c := CStr(src);
    if |c| >= NameCapacity - 1 {
      var p := c[..NameCapacity - 1];
      assert '\0' !in p by { assert forall k :: 0 <= k < |p| ==> p[k] == c[k]; }
      assert NameBuffer(src) == p + Nuls(0) + ['\0'];
      CStrOfPadded(p, 0);
    } else {
      CStrOfPadded(c, NameCapacity - 1 - |c|);
    }
    if |src| < NameCapacity && '\0' !in src {
      CStrNoNul(src);
    }
  }

  /**
   * The 13-argument constructor: every argument is copied into its field,
   * except the name, which goes through the bounded copy.
   */
  function NewInstrument(idinstrument: int, marketIdentificationCode: string, tradingCurrency: string,
                         name: string, issue: int, state: State, refprice: int, idtradinggroup: int,
                         lotsize: int, pricedecimal: int, currentorderid: int, currenttradeid: int,
                         idapf: int): (r: Instrument)
    ensures r.KeyOf() == Key(idinstrument, marketIdentificationCode, tradingCurrency)
    ensures |r.name| == NameCapacity && r.name[NameCapacity - 1] == '\0'
    ensures CStr(r.name) == Truncated(name)
    ensures r.issue == issue && r.state == state && r.refprice == refprice
    ensures r.idtradinggroup == idtradinggroup && r.lotsize == lotsize && r.pricedecimal == pricedecimal
    ensures r.currentorderid == currentorderid && r.currenttradeid == currenttradeid && r.idapf == idapf
  {
    NameRoundTrip(name);
    Instrument(idinstrument, marketIdentificationCode, tradingCurrency, NameBuffer(name), issue, state,
               refprice, idtradinggroup, lotsize, pricedecimal, currentorderid, currenttradeid, idapf)
  }

  /** The text `display` prints for a state. */
  function StateName(s: State): (r: string)
    ensures r == "DELISTED" <==> s == DELISTED
  {
    match s
    case ACTIVE => "ACTIVE"
    case INACTIVE => "INACTIVE"
    case SUSPENDED => "SUSPENDED"
    case DELISTED => "DELISTED"
  }

  /** Distinct states print as distinct names, so the printed name identifies the state. */
  lemma StateNameInjective(s: State, t: State)
    ensures StateName(s) == StateName(t) <==> s == t
  {
    if s != t {
      match s
      case ACTIVE => assert StateName(s)[0] == 'A';
      case INACTIVE => assert StateName(s)[0] == 'I';
      case SUSPENDED => assert StateName(s)[0] == 'S';
      case DELISTED => assert StateName(s)[0] == 'D';
    }
  }
}
