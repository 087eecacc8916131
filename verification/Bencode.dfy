/**
  Bencoding (BEP 3): the writer of crates/pivss-core/src/torrent.rs, and a strict
  parser for the format against which it is proved.
 */
module Bencode {
  import opened Bytes
  import opened Ordering
  import opened Wrappers

  datatype Value =
    | Int(n: int)
    | Str(s: Bytes)
    | List(items: Items)
    | Dict(entries: Entries)

  datatype Items = NoItems | Item(head: Value, tail: Items)

  datatype Entries = NoEntries | Entry(key: Bytes, value: Value, rest: Entries)

  // ----------------------------------------------------------------- encoding

  function Signed(n: int): Bytes {
    if n < 0 then "-" + Decimal(-n) else Decimal(n)
  }

  function EncodeStr(s: Bytes): Bytes {
    Decimal(|s|) + ":" + s
  }

  function Encode(v: Value): Bytes {
    match v
    case Int(n) => "i" + Signed(n) + "e"
    case Str(s) => EncodeStr(s)
    case List(items) => "l" + EncodeItems(items) + "e"
    case Dict(entries) => "d" + EncodeEntries(entries) + "e"
  }

  function EncodeItems(items: Items): Bytes {
    match items
    case NoItems => []
    case Item(head, tail) => Encode(head) + EncodeItems(tail)
  }

  function EncodeEntries(entries: Entries): Bytes {
    match entries
    case NoEntries => []
    case Entry(key, value, rest) => EncodeStr(key) + Encode(value) + EncodeEntries(rest)
  }

  /** Every dictionary has strictly increasing keys. */
  predicate WellFormed(v: Value) {
    match v
    case Int(_) => true
    case Str(_) => true
    case List(items) => WellFormedItems(items)
    case Dict(entries) => WellFormedEntries(entries, None)
  }

  predicate WellFormedItems(items: Items) {
    match items
    case NoItems => true
    case Item(head, tail) => WellFormed(head) && WellFormedItems(tail)
  }

  predicate Follows(previous: Option<Bytes>, key: Bytes) {
    previous.Some? ==> LexLess(previous.value, key)
  }

  predicate WellFormedEntries(entries: Entries, previous: Option<Bytes>) {
    match entries
    case NoEntries => true
    case Entry(key, value, rest) =>
      Follows(previous, key) && WellFormed(value) && WellFormedEntries(rest, Some(key))
  }

  // ------------------------------------------------------------------ parsing

  function LeadingDigits(b: Bytes): (k: nat)
    ensures k <= |b| && AllDigits(b[..k])
    ensures k < |b| ==> !IsDigit(b[k])
  {
    if b == [] || !IsDigit(b[0]) then 0
    else
      var k := LeadingDigits(b[1..]);
      assert b[..k + 1] == [b[0]] + b[1..][..k];
      k + 1
  }

  /** A canonical numeral, closed by the terminator `stop`. */
  function ParseNumeral(b: Bytes, stop: char): (r: Option<(nat, Bytes)>)
    ensures r.Some? ==> |r.value.1| < |b|
  {
    var k := LeadingDigits(b);
    if k < |b| && b[k] == stop && IsNumeral(b[..k]) then Some((DecimalValue(b[..k]), b[k + 1..])) else None
  }

  /** An integer after its leading `i`; a minus sign needs a positive magnitude. */
  function ParseInt(b: Bytes): (r: Option<(int, Bytes)>)
    ensures r.Some? ==> |r.value.1| < |b|
  {
    if b != [] && b[0] == '-' then
      match ParseNumeral(b[1..], 'e')
      case Some((n, rest)) => if n == 0 then None else Some((0 - n as int, rest))
      case None => None
    else
      match ParseNumeral(b, 'e')
      case Some((n, rest)) => Some((n as int, rest))
      case None => None
  }

  function ParseStr(b: Bytes): (r: Option<(Bytes, Bytes)>)
    ensures r.Some? ==> |r.value.1| < |b|
  {
    match ParseNumeral(b, ':')
    case Some((n, rest)) => if n <= |rest| then Some((rest[..n], rest[n..])) else None
    case None => None
  }

  function Parse(b: Bytes): (r: Option<(Value, Bytes)>)
    ensures r.Some? ==> |r.value.1| < |b|
    decreases |b|, 1
  {
    if b == [] then None
    else if b[0] == 'i' then
      match ParseInt(b[1..])
      case Some((n, rest)) => Some((Int(n), rest))
      case None => None
    else if b[0] == 'l' then
      match ParseItems(b[1..])
      case Some((items, rest)) => Some((List(items), rest))
      case None => None
    else if b[0] == 'd' then
      match ParseEntries(b[1..], None)
      case Some((entries, rest)) => Some((Dict(entries), rest))
      case None => None
    else
      match ParseStr(b)
      case Some((s, rest)) => Some((Str(s), rest))
      case None => None
  }

  function ParseItems(b: Bytes): (r: Option<(Items, Bytes)>)
    ensures r.Some? ==> |r.value.1| < |b|
    decreases |b|, 2
  {
    if b == [] then None
    else if b[0] == 'e' then Some((NoItems, b[1..]))
    else match Parse(b)
      case None => None
      case Some((head, rest)) =>
        match ParseItems(rest)
        case None => None
        case Some((tail, rest')) => Some((Item(head, tail), rest'))
  }

  function ParseEntries(b: Bytes, previous: Option<Bytes>): (r: Option<(Entries, Bytes)>)
    ensures r.Some? ==> |r.value.1| < |b|
    decreases |b|, 2
  {
    if b == [] then None
    else if b[0] == 'e' then Some((NoEntries, b[1..]))
    else match ParseStr(b)
      case None => None
      case Some((key, rest)) =>
        if !Follows(previous, key) then None
        else match Parse(rest)
          case None => None
          case Some((value, rest')) =>
            match ParseEntries(rest', Some(key))
            case None => None
            case Some((entries, rest'')) => Some((Entry(key, value, entries), rest''))
  }

  // --------------------------------------------------- the parser undoes Encode

  lemma {:induction false} LeadingDigitsOf(digits: Bytes, rest: Bytes)
    requires AllDigits(digits) && (rest != [] ==> !IsDigit(rest[0]))
    ensures LeadingDigits(digits + rest) == |digits|
  {
    if digits == [] {
      assert digits + rest == rest;
    } else {
      LeadingDigitsOf(digits[1..], rest);
      assert (digits + rest)[1..] == digits[1..] + rest;
    }
  }

  lemma NumeralRoundTrip(n: nat, stop: Byte, rest: Bytes)
    requires !IsDigit(stop)
    ensures ParseNumeral(Decimal(n) + [stop] + rest, stop) == Some((n, rest))
  {
    DecimalReadsBack(n);
    var d := Decimal(n);
    assert d + [stop] + rest == d + ([stop] + rest);
    LeadingDigitsOf(d, [stop] + rest);
    assert (d + [stop] + rest)[..|d|] == d;
    assert (d + [stop] + rest)[|d| + 1..] == rest;
  }

  lemma ParseMinus(digits: Bytes, n: nat, rest: Bytes)
    requires n > 0 && ParseNumeral(digits + "e" + rest, 'e') == Some((n, rest))
    ensures ParseInt("-" + digits + "e" + rest) == Some((0 - n as int, rest))
  {
    assert ("-" + digits + "e" + rest)[1..] == digits + "e" + rest;
  }

  lemma ParsePlus(digits: Bytes, n: nat, rest: Bytes)
    requires digits != [] && digits[0] != '-' && ParseNumeral(digits + "e" + rest, 'e') == Some((n, rest))
    ensures ParseInt(digits + "e" + rest) == Some((n as int, rest))
  {
    assert (digits + "e" + rest)[0] == digits[0];
  }

  lemma IntRoundTrip(n: int, rest: Bytes)
    ensures ParseInt(Signed(n) + "e" + rest) == Some((n, rest))
  {
    var m := if n < 0 then -n else n;
    NumeralRoundTrip(m, 'e', rest);
    DecimalReadsBack(m);
    if n < 0 {
      ParseMinus(Decimal(m), m, rest);
    } else {
      ParsePlus(Decimal(m), m, rest);
    }
  }

  /** Taking a tag byte off, and putting it back. */
  lemma Tagged(tag: Byte, body: Bytes, rest: Bytes)
    ensures ([tag] + body + "e" + rest)[0] == tag
    ensures ([tag] + body + "e" + rest)[1..] == body + "e" + rest
  {}

  lemma Untagged(b: Bytes, body: Bytes, rest: Bytes)
    requires b != [] && b[1..] == body + "e" + rest
    ensures b == [b[0]] + body + "e" + rest
  {
    assert b == [b[0]] + b[1..];
  }

  lemma StrRoundTrip(s: Bytes, rest: Bytes)
    ensures ParseStr(EncodeStr(s) + rest) == Some((s, rest))
    ensures IsDigit((EncodeStr(s) + rest)[0])
  {
    DecimalReadsBack(|s|);
    assert EncodeStr(s) + rest == Decimal(|s|) + ":" + (s + rest);
    NumeralRoundTrip(|s|, ':', s + rest);
    assert (s + rest)[..|s|] == s && (s + rest)[|s|..] == rest;
  }

  /** No encoding starts with the closing `e`. */
  lemma FirstByte(v: Value)
    ensures Encode(v) != [] && Encode(v)[0] != 'e'
  {
    if v.Str? {
      StrRoundTrip(v.s, []);
      assert EncodeStr(v.s) + [] == EncodeStr(v.s);
    }
  }

  /** Parsing what was encoded, with anything after it, returns the tree and leaves the rest. */
  lemma {:induction false} EncodeRoundTrip(v: Value, rest: Bytes)
    requires WellFormed(v)
    ensures Parse(Encode(v) + rest) == Some((v, rest))
    decreases v
  {
    var b := Encode(v) + rest;
    match v {
      case Int(n) =>
        IntRoundTrip(n, rest);
        Tagged('i', Signed(n), rest);
      case Str(s) =>
        StrRoundTrip(s, rest);
      case List(items) =>
        ItemsRoundTrip(items, rest);
        Tagged('l', EncodeItems(items), rest);
      case Dict(entries) =>
        EntriesRoundTrip(entries, None, rest);
        Tagged('d', EncodeEntries(entries), rest);
    }
  }

  lemma ReassociateItem(a: Bytes, b: Bytes, rest: Bytes)
    ensures a + (b + "e" + rest) == a + b + "e" + rest
  {}

  lemma {:induction false} ItemsRoundTrip(items: Items, rest: Bytes)
    requires WellFormedItems(items)
    ensures ParseItems(EncodeItems(items) + "e" + rest) == Some((items, rest))
    decreases items
  {
    var b := EncodeItems(items) + "e" + rest;
    match items {
      case NoItems =>
        assert b[1..] == rest;
      case Item(head, tail) =>
        var more := EncodeItems(tail) + "e" + rest;
        ReassociateItem(Encode(head), EncodeItems(tail), rest);
        FirstByte(head);
        EncodeRoundTrip(head, more);
        ItemsRoundTrip(tail, rest);
    }
  }

  lemma Reassociate(a: Bytes, b: Bytes, c: Bytes, rest: Bytes)
    ensures a + (b + (c + "e" + rest)) == a + b + c + "e" + rest
  {}

  lemma {:induction false} EntriesRoundTrip(entries: Entries, previous: Option<Bytes>, rest: Bytes)
    requires WellFormedEntries(entries, previous)
    ensures ParseEntries(EncodeEntries(entries) + "e" + rest, previous) == Some((entries, rest))
    decreases entries
  {
    var b := EncodeEntries(entries) + "e" + rest;
    match entries {
      case NoEntries =>
        assert b[1..] == rest;
      case Entry(key, value, tail) =>
        var more := EncodeEntries(tail) + "e" + rest;
        Reassociate(EncodeStr(key), Encode(value), EncodeEntries(tail), rest);
        StrRoundTrip(key, Encode(value) + more);
        EncodeRoundTrip(value, more);
        EntriesRoundTrip(tail, Some(key), rest);
    }
  }

  // ------------------------------------------------- only encodings are parsed

  lemma NumeralCanonical(b: Bytes, stop: char)
    requires ParseNumeral(b, stop).Some?
    ensures b == Decimal(ParseNumeral(b, stop).value.0) + [stop] + ParseNumeral(b, stop).value.1
  {
    var k := LeadingDigits(b);
    NumeralIsPrinted(b[..k]);
    assert b == b[..k] + [b[k]] + b[k + 1..];
  }

  lemma IntCanonical(b: Bytes)
    requires ParseInt(b).Some?
    ensures b == Signed(ParseInt(b).value.0) + "e" + ParseInt(b).value.1
  {
    if b[0] == '-' {
      NumeralCanonical(b[1..], 'e');
      assert b == ['-'] + b[1..];
    } else {
      NumeralCanonical(b, 'e');
    }
  }

  lemma StrCanonical(b: Bytes)
    requires ParseStr(b).Some?
    ensures b == EncodeStr(ParseStr(b).value.0) + ParseStr(b).value.1
  {
    NumeralCanonical(b, ':');
    var (n, rest) := ParseNumeral(b, ':').value;
    assert rest == rest[..n] + rest[n..];
  }

  /** Whatever parses is the encoding of the tree it parses to: there is one spelling per tree. */
  lemma {:induction false} ParseCanonical(b: Bytes)
    requires Parse(b).Some?
    ensures b == Encode(Parse(b).value.0) + Parse(b).value.1
    ensures WellFormed(Parse(b).value.0)
    decreases |b|, 1
  {
    var rest := Parse(b).value.1;
    if b[0] == 'i' {
      IntCanonical(b[1..]);
      Untagged(b, Signed(ParseInt(b[1..]).value.0), rest);
    } else if b[0] == 'l' {
      ItemsCanonical(b[1..]);
      Untagged(b, EncodeItems(ParseItems(b[1..]).value.0), rest);
    } else if b[0] == 'd' {
      EntriesCanonical(b[1..], None);
      Untagged(b, EncodeEntries(ParseEntries(b[1..], None).value.0), rest);
    } else {
      StrCanonical(b);
    }
  }

  lemma {:induction false} ItemsCanonical(b: Bytes)
    requires ParseItems(b).Some?
    ensures b == EncodeItems(ParseItems(b).value.0) + "e" + ParseItems(b).value.1
    ensures WellFormedItems(ParseItems(b).value.0)
    decreases |b|, 2
  {
    if b[0] == 'e' {
      assert b == [b[0]] + b[1..];
    } else {
      ParseCanonical(b);
      var (head, rest) := Parse(b).value;
      ItemsCanonical(rest);
      var (tail, rest') := ParseItems(rest).value;
      ReassociateItem(Encode(head), EncodeItems(tail), rest');
    }
  }

  lemma {:induction false} EntriesCanonical(b: Bytes, previous: Option<Bytes>)
    requires ParseEntries(b, previous).Some?
    ensures b == EncodeEntries(ParseEntries(b, previous).value.0) + "e" + ParseEntries(b, previous).value.1
    ensures WellFormedEntries(ParseEntries(b, previous).value.0, previous)
    decreases |b|, 2
  {
    if b[0] == 'e' {
      assert b == [b[0]] + b[1..];
    } else {
      StrCanonical(b);
      var (key, rest) := ParseStr(b).value;
      ParseCanonical(rest);
      var (value, rest') := Parse(rest).value;
      EntriesCanonical(rest', Some(key));
      var (entries, rest'') := ParseEntries(rest', Some(key)).value;
      Reassociate(EncodeStr(key), Encode(value), EncodeEntries(entries), rest'');
    }
  }

  // ------------------------------------------------------------------- writer

  class Bencoder {
    var out: Bytes

    constructor ()
      ensures out == []
    {
      out := [];
    }

    method Int(v: int)
      modifies this
      ensures out == old(out) + Encode(Value.Int(v))
    {
      out := out + ("i" + Signed(v) + "e");
    }

    method Raw(v: Bytes)
      modifies this
      ensures out == old(out) + v
    {
      out := out + v;
    }

    method Str(v: Bytes)
      modifies this
      ensures out == old(out) + EncodeStr(v)
    {
      out := out + (Decimal(|v|) + ":");
      out := out + v;
      assert out == old(out) + (Decimal(|v|) + ":" + v);
    }
  }

  lemma EncodeInjective(a: Value, b: Value)
    requires WellFormed(a) && WellFormed(b) && Encode(a) == Encode(b)
    ensures a == b
  {
    EncodeRoundTrip(a, []);
    EncodeRoundTrip(b, []);
  }
}
