/** The control payload: Python's `str()` of the routing table and the `literal_eval` that reads
    it back, for the canonical text `str()` produces (network_3.py:257, :271). */
module Literals {
  import opened Common
  import opened Dicts

  predicate IsDigit(c: char) {
    '0' <= c <= '9'
  }

  function Digit(n: nat): (c: char)
    requires n < 10
    ensures IsDigit(c) && c as int - '0' as int == n
  {
    ('0' as int + n) as char
  }

  /** `str(n)` for a natural number: decimal digits, no leading zero. */
  function NatStr(n: nat): (s: string)
    ensures |s| > 0 && forall i :: 0 <= i < |s| ==> IsDigit(s[i])
    ensures s[0] == '0' <==> n == 0
    ensures n == 0 ==> s == "0"
    decreases n
  {
    if n < 10 then [Digit(n)] else NatStr(n / 10) + [Digit(n % 10)]
  }

  function IntStr(n: int): string {
    if n < 0 then "-" + NatStr(-n) else NatStr(n)
  }

  /** The value of a string of decimal digits. */
  function DigitsValue(ds: string): nat
    requires forall i :: 0 <= i < |ds| ==> IsDigit(ds[i])
  {
    if ds == [] then 0
    else
      assert IsDigit(ds[|ds| - 1]);
      DigitsValue(ds[..|ds| - 1]) * 10 + (ds[|ds| - 1] as int - '0' as int)
  }

  lemma {:induction false} NatStrValue(n: nat)
    ensures DigitsValue(NatStr(n)) == n
    decreases n
  {
    if n >= 10 {
      NatStrValue(n / 10);
      var s := NatStr(n);
      assert s[..|s| - 1] == NatStr(n / 10);
    }
  }

  /** The number of decimal digits `s` starts with. */
  function DigitSpan(s: string): (k: nat)
    ensures k <= |s|
    ensures forall i :: 0 <= i < k ==> IsDigit(s[i])
    ensures k < |s| ==> !IsDigit(s[k])
  {
    if s != [] && IsDigit(s[0]) then 1 + DigitSpan(s[1..]) else 0
  }

  lemma {:induction false} DigitSpanOf(ds: string, r: string)
    requires forall i :: 0 <= i < |ds| ==> IsDigit(ds[i])
    requires r == [] || !IsDigit(r[0])
    ensures DigitSpan(ds + r) == |ds|
  {
    if ds != [] {
      assert (ds + r)[1..] == ds[1..] + r;
      DigitSpanOf(ds[1..], r);
    } else {
      assert ds + r == r;
    }
  }

  /** A natural-number literal: one or more digits, and no leading zero unless it is `0`. */
  function ParseNat(s: string): (r: Option<(nat, string)>)
    ensures r.Some? ==> |r.value.1| < |s|
  {
    var k := DigitSpan(s);
    if k == 0 || (k > 1 && s[0] == '0') then None else Some((DigitsValue(s[..k]), s[k..]))
  }

  /** An integer literal: a natural-number literal, possibly after a minus sign. */
  function ParseInt(s: string): (r: Option<(int, string)>)
    ensures r.Some? ==> |r.value.1| < |s|
  {
    var neg := s != [] && s[0] == '-';
    match ParseNat(if neg then s[1..] else s)
    case None => None
    case Some((n, rest)) =>
      var m: int := if neg then -(n as int) else n;
      Some((m, rest))
  }

  /** The characters that may follow a value inside a dict literal. */
  predicate FollowsValue(r: string) {
    r != [] && (r[0] == ',' || r[0] == '}')
  }

  lemma NatRoundTrip(n: nat, r: string)
    requires r == [] || !IsDigit(r[0])
    ensures ParseNat(NatStr(n) + r) == Some((n, r))
  {
    var ds := NatStr(n);
    DigitSpanOf(ds, r);
    NatStrValue(n);
    assert (ds + r)[..|ds|] == ds && (ds + r)[|ds|..] == r;
  }

  /** Reading back `str(n)` gives `n` and leaves the text after it. */
  lemma IntRoundTrip(n: int, r: string)
    requires FollowsValue(r)
    ensures ParseInt(IntStr(n) + r) == Some((n, r))
  {
    hide ParseNat, NatStr;
    if n < 0 {
      NatRoundTrip(-n, r);
      assert (IntStr(n) + r)[1..] == NatStr(-n) + r;
    } else {
      NatRoundTrip(n, r);
      assert NatStr(n)[0] != '-';
    }
  }

  /** Names whose `repr` is the name between single quotes: printable ASCII with no quote
      and no backslash. */
  predicate PlainName(k: string) {
    forall i :: 0 <= i < |k| ==> ' ' <= k[i] <= '~' && k[i] != '\'' && k[i] != '\\'
  }

  function Quote(k: string): string {
    "'" + k + "'"
  }

  /** The position of the first quote in `s`, or `|s|` if there is none. */
  function QuoteSpan(s: string): (k: nat)
    ensures k <= |s|
    ensures forall i :: 0 <= i < k ==> s[i] != '\''
    ensures k < |s| ==> s[k] == '\''
  {
    if s != [] && s[0] != '\'' then 1 + QuoteSpan(s[1..]) else 0
  }

  lemma {:induction false} QuoteSpanOf(k: string, r: string)
    requires forall i :: 0 <= i < |k| ==> k[i] != '\''
    ensures QuoteSpan(k + "'" + r) == |k|
  {
    if k != [] {
      assert (k + "'" + r)[1..] == k[1..] + "'" + r;
      QuoteSpanOf(k[1..], r);
    } else {
      assert (k + "'" + r)[0] == '\'';
    }
  }

  /** A quoted name; anything whose `literal_eval` would differ (escapes) is refused. */
  function ParseName(s: string): (r: Option<(string, string)>)
    ensures r.Some? ==> |r.value.1| < |s|
  {
    if s == [] || s[0] != '\'' then None
    else
      var k := QuoteSpan(s[1..]);
      if k == |s| - 1 || !PlainName(s[1..k + 1]) then None else Some((s[1..k + 1], s[k + 2..]))
  }

  lemma NameRoundTrip(k: string, r: string)
    requires PlainName(k)
    ensures ParseName(Quote(k) + r) == Some((k, r))
  {
    var s := Quote(k) + r;
    assert s[1..] == k + "'" + r;
    QuoteSpanOf(k, r);
    assert s[1..|k| + 1] == k;
    assert s[|k| + 2..] == r;
  }

  /** `str(d)` of a dict with string keys, given `str` of its values. */
  function DictStr<V>(d: Dict<string, V>, vs: V -> string): string {
    "{" + EntriesStr(d, vs, 0) + "}"
  }

  function EntryStr<V>(d: Dict<string, V>, vs: V -> string, i: nat): string
    requires i < |d.keys|
  {
    Quote(d.keys[i]) + ": " + vs(d.vals[d.keys[i]])
  }

  /** The entries from the `i`-th on, separated by ", ". */
  function EntriesStr<V>(d: Dict<string, V>, vs: V -> string, i: nat): string
    requires i <= |d.keys|
    decreases |d.keys| - i
  {
    if i == |d.keys| then ""
    else EntryStr(d, vs, i) + (if i + 1 < |d.keys| then ", " + EntriesStr(d, vs, i + 1) else "")
  }

  ghost predicate Shrinks<V>(pv: string -> Option<(V, string)>) {
    forall s :: pv(s).Some? ==> |pv(s).value.1| < |s|
  }

  /** A dict literal `{k: v, ...}`; a repeated key keeps its first place and its last value. */
  function ParseDict<V>(s: string, pv: string -> Option<(V, string)>): (r: Option<(Dict<string, V>, string)>)
    requires Shrinks(pv)
    ensures r.Some? ==> |r.value.1| < |s|
  {
    if |s| >= 2 && s[..2] == "{}" then Some((Empty(), s[2..]))
    else if s != [] && s[0] == '{' then ParseEntries(s[1..], Empty(), pv)
    else None
  }

  function ParseEntries<V>(s: string, acc: Dict<string, V>, pv: string -> Option<(V, string)>)
    : (r: Option<(Dict<string, V>, string)>)
    requires Shrinks(pv)
    ensures r.Some? ==> |r.value.1| < |s|
    decreases |s|
  {
    match ParseName(s)
    case None => None
    case Some((k, s1)) =>
      if |s1| < 2 || s1[..2] != ": " then None
      else
        match pv(s1[2..])
        case None => None
        case Some((v, s2)) =>
          var acc' := Store(acc, k, v);
          if |s2| >= 2 && s2[..2] == ", " then ParseEntries(s2[2..], acc', pv)
          else if s2 != [] && s2[0] == '}' then Some((acc', s2[1..]))
          else None
  }

  /** `pv` reads back `vs(v)` whatever legal text follows it. */
  ghost predicate ReadsBack<V>(vs: V -> string, pv: string -> Option<(V, string)>, v: V) {
    forall r :: FollowsValue(r) ==> pv(vs(v) + r) == Some((v, r))
  }

  /** One entry `'k': v` followed by a separator or by the closing brace. */
  lemma EntryStep<V>(k: string, v: V, tail: string, acc: Dict<string, V>, vs: V -> string,
                     pv: string -> Option<(V, string)>)
    requires Shrinks(pv)
    requires PlainName(k) && ReadsBack(vs, pv, v) && FollowsValue(tail)
    ensures tail[0] == '}' ==>
      ParseEntries(Quote(k) + (": " + vs(v) + tail), acc, pv) == Some((Store(acc, k, v), tail[1..]))
    ensures |tail| >= 2 && tail[..2] == ", " ==>
      ParseEntries(Quote(k) + (": " + vs(v) + tail), acc, pv) == ParseEntries(tail[2..], Store(acc, k, v), pv)
  {
    var s1 := ": " + vs(v) + tail;
    NameRoundTrip(k, s1);
    assert s1[..2] == ": ";
    assert s1[2..] == vs(v) + tail;
    assert pv(s1[2..]) == Some((v, tail));
  }

  lemma {:induction false} EntriesRoundTrip<V>(d: Dict<string, V>, vs: V -> string,
                                                pv: string -> Option<(V, string)>, i: nat, r: string)
    requires Shrinks(pv)
    requires i < |d.keys|
    requires forall j :: 0 <= j < |d.keys| ==> PlainName(d.keys[j])
    requires forall k :: k in d.vals ==> ReadsBack(vs, pv, d.vals[k])
    ensures ParseEntries(EntriesStr(d, vs, i) + "}" + r, Prefix(d, i), pv) == Some((d, r))
    decreases |d.keys| - i
  {
    hide ParseEntries, ParseName, Prefix, Store, Quote;
    var k := d.keys[i];
    var v := d.vals[k];
    var e := EntryStr(d, vs, i);
    assert e == Quote(k) + ": " + vs(v);
    var acc := Prefix(d, i);
    PrefixStep(d, i);
    if i + 1 == |d.keys| {
      var tail := "}" + r;
      assert EntriesStr(d, vs, i) + "}" + r == Quote(k) + (": " + vs(v) + tail);
      EntryStep(k, v, tail, acc, vs, pv);
      PrefixAll(d);
      assert tail[1..] == r;
    } else {
      var rest := EntriesStr(d, vs, i + 1) + "}" + r;
      var tail := ", " + rest;
      assert EntriesStr(d, vs, i) + "}" + r == Quote(k) + (": " + vs(v) + tail) by {
        assert EntriesStr(d, vs, i) == e + (", " + EntriesStr(d, vs, i + 1));
      }
      EntryStep(k, v, tail, acc, vs, pv);
      assert tail[..2] == ", " && tail[2..] == rest;
      EntriesRoundTrip(d, vs, pv, i + 1, r);
      assert ParseEntries(tail[2..], Store(acc, k, v), pv) == Some((d, r));
    }
  }

  /** Reading back `str(d)` gives `d`, keys in the same order, and leaves the text after it. */
  lemma DictRoundTrip<V>(d: Dict<string, V>, vs: V -> string, pv: string -> Option<(V, string)>, r: string)
    requires Shrinks(pv)
    requires forall j :: 0 <= j < |d.keys| ==> PlainName(d.keys[j])
    requires forall k :: k in d.vals ==> ReadsBack(vs, pv, d.vals[k])
    ensures ParseDict(DictStr(d, vs) + r, pv) == Some((d, r))
  {
    hide ParseEntries, ParseName;
    var s := DictStr(d, vs) + r;
    if d.keys == [] {
      forall k | k in d.vals
        ensures false
      {
        KeyListed(d, k);
      }
      assert d.vals == map[];
      assert s == "{}" + r;
      assert d == Empty();
    } else {
      assert s[1..] == EntriesStr(d, vs, 0) + "}" + r;
      assert s[1] == '\'';
      EntriesRoundTrip(d, vs, pv, 0, r);
      assert Prefix(d, 0) == Empty();
    }
  }

  /** A `{reporter: cost}` dict. */
  type Costs = Dict<string, int>

  /** A routing table `{destination: {reporter: cost}}`. */
  type Table = Dict<string, Costs>

  function CostsStr(c: Costs): string {
    DictStr(c, IntStr)
  }

  function ParseCosts(s: string): (r: Option<(Costs, string)>)
    ensures r.Some? ==> |r.value.1| < |s|
  {
    ParseDict(s, ParseInt)
  }

  /** `str(rt_tbl_D)`. */
  function TableStr(t: Table): (r: string)
    ensures |r| >= 2 && r[0] == '{' && r[|r| - 1] == '}'
  {
    DictStr(t, CostsStr)
  }

  /** `literal_eval(data_S)` for a table; trailing text or any other literal is refused. */
  function ParseTable(s: string): (r: Option<Table>)
    ensures r.Some? ==> |s| >= 2 && s[0] == '{'
  {
    match ParseDict(s, ParseCosts)
    case Some((t, rest)) => if rest == [] then Some(t) else None
    case None => None
  }

  ghost predicate PlainKeys<V>(d: Dict<string, V>) {
    forall j :: 0 <= j < |d.keys| ==> PlainName(d.keys[j])
  }

  /** Every destination and reporter name of the table is a plain name. */
  ghost predicate PlainTable(t: Table) {
    PlainKeys(t) && forall d :: d in t.vals ==> PlainKeys(t.vals[d])
  }

  lemma CostsReadBack(c: Costs)
    requires PlainKeys(c)
    ensures ReadsBack(CostsStr, ParseCosts, c)
  {
    forall k | k in c.vals ensures ReadsBack(IntStr, ParseInt, c.vals[k]) {
      forall r | FollowsValue(r) ensures ParseInt(IntStr(c.vals[k]) + r) == Some((c.vals[k], r)) {
        IntRoundTrip(c.vals[k], r);
      }
    }
    forall r | FollowsValue(r) ensures ParseCosts(CostsStr(c) + r) == Some((c, r)) {
      DictRoundTrip(c, IntStr, ParseInt, r);
    }
  }

  /** The payload of a routing update reads back as the table that was sent. */
  lemma TableRoundTrip(t: Table)
    requires PlainTable(t)
    ensures ParseTable(TableStr(t)) == Some(t)
  {
    forall d | d in t.vals ensures ReadsBack(CostsStr, ParseCosts, t.vals[d]) {
      CostsReadBack(t.vals[d]);
    }
    DictRoundTrip(t, CostsStr, ParseCosts, "");
    assert TableStr(t) + "" == TableStr(t);
  }
}
