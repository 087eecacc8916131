/**
  Percent-encoding and magnet links (crates/pivss-core/src/torrent.rs), proved
  against a parser of the link.
 */
module Magnet {
  import opened Bytes
  import opened Wrappers

  /** The unreserved characters of RFC 3986, section 2.3. */
  predicate Unreserved(c: char) {
    'A' <= c <= 'Z' || 'a' <= c <= 'z' || '0' <= c <= '9' || c == '-' || c == '_' || c == '.' || c == '~'
  }

  function UpperHexDigit(d: nat): Byte
    requires d < 16
  {
    if d < 10 then Digit(d) else (55 + d) as char
  }

  function EscapeByte(b: Byte): Bytes {
    if Unreserved(b) then [b] else ['%', UpperHexDigit(b as int / 16), UpperHexDigit(b as int % 16)]
  }

  function UrlEncoded(s: Bytes): Bytes {
    if s == [] then [] else UrlEncoded(s[..|s| - 1]) + EscapeByte(s[|s| - 1])
  }

  method UrlEncode(s: Bytes) returns (out: Bytes)
    ensures out == UrlEncoded(s)
  {
    out := [];
    for i := 0 to |s|
      invariant out == UrlEncoded(s[..i])
    {
      assert s[..i + 1][..i] == s[..i];
      if Unreserved(s[i]) {
        out := out + [s[i]];
      } else {
        out := out + ['%', UpperHexDigit(s[i] as int / 16), UpperHexDigit(s[i] as int % 16)];
      }
    }
    assert s[..|s|] == s;
  }

  /** Percent-decoding (RFC 3986, section 2.1): unreserved characters and `%XX` only. */
  function PercentDecode(s: Bytes): Option<Bytes> {
    if s == [] then Some([])
    else if Unreserved(s[0]) then
      match PercentDecode(s[1..])
      case Some(rest) => Some([s[0]] + rest)
      case None => None
    else if s[0] == '%' && |s| >= 3 then
      match (HexDigitValue(s[1]), HexDigitValue(s[2]), PercentDecode(s[3..]))
      case (Some(hi), Some(lo), Some(rest)) => Some([HexByte(hi, lo)] + rest)
      case _ => None
    else None
  }

  predicate Escaped(s: Bytes) {
    forall c :: c in s ==> Unreserved(c) || c == '%'
  }

  lemma DecodeEscapedByte(b: Byte, rest: Bytes)
    requires PercentDecode(rest).Some?
    ensures PercentDecode(EscapeByte(b) + rest) == Some([b] + PercentDecode(rest).value)
  {
    var s := EscapeByte(b) + rest;
    if Unreserved(b) {
      assert s[1..] == rest;
    } else {
      var hi, lo := b as int / 16, b as int % 16;
      assert s[0] == '%' && s[1] == UpperHexDigit(hi) && s[2] == UpperHexDigit(lo) && s[3..] == rest;
      assert HexDigitValue(UpperHexDigit(hi)) == Some(hi) && HexDigitValue(UpperHexDigit(lo)) == Some(lo);
      assert HexByte(hi, lo) == b;
    }
  }

  lemma Associative<T>(a: seq<T>, b: seq<T>, c: seq<T>)
    ensures (a + b) + c == a + (b + c)
  {}

  lemma {:induction false} DecodeEncoded(s: Bytes, rest: Bytes, decoded: Bytes)
    requires PercentDecode(rest) == Some(decoded)
    ensures PercentDecode(UrlEncoded(s) + rest) == Some(s + decoded)
  {
    if s == [] {
      assert UrlEncoded(s) + rest == rest;
      assert s + decoded == decoded;
    } else {
      var last, init := s[|s| - 1], s[..|s| - 1];
      var escaped := EscapeByte(last);
      DecodeEscapedByte(last, rest);
      DecodeEncoded(init, escaped + rest, [last] + decoded);
      Associative(UrlEncoded(init), escaped, rest);
      Associative(init, [last], decoded);
      assert s == init + [last];
    }
  }

  lemma {:induction false} EncodedIsEscaped(s: Bytes)
    ensures Escaped(UrlEncoded(s))
  {
    if s != [] {
      EncodedIsEscaped(s[..|s| - 1]);
    }
  }

  /** Percent-decoding undoes the encoder on every byte string; its output needs no further escaping. */
  lemma UrlEncodeRoundTrip(s: Bytes)
    ensures PercentDecode(UrlEncoded(s)) == Some(s)
    ensures Escaped(UrlEncoded(s))
  {
    DecodeEncoded(s, [], []);
    EncodedIsEscaped(s);
    assert UrlEncoded(s) + [] == UrlEncoded(s) && s + [] == s;
  }

  /** Byte by byte: an unreserved character stands for itself, any other becomes `%` and two upper-case digits. */
  lemma EncodesEachByte(s: Bytes, b: Byte)
    ensures UrlEncoded(s + [b]) ==
            if 'A' <= b <= 'Z' || 'a' <= b <= 'z' || '0' <= b <= '9' || b in {'-', '_', '.', '~'} then UrlEncoded(s) + [b]
            else UrlEncoded(s) + ['%', "0123456789ABCDEF"[b as int / 16], "0123456789ABCDEF"[b as int % 16]]
  {
    assert UpperHexDigit(b as int / 16) == "0123456789ABCDEF"[b as int / 16];
    assert UpperHexDigit(b as int % 16) == "0123456789ABCDEF"[b as int % 16];
    assert (s + [b])[..|s|] == s;
  }

  /** The output holds only the unreserved characters of RFC 3986, section 2.3, and `%`. */
  lemma {:induction false} OutputCharacters(s: Bytes)
    ensures forall c :: c in UrlEncoded(s) ==>
              'A' <= c <= 'Z' || 'a' <= c <= 'z' || '0' <= c <= '9' || c in {'-', '_', '.', '~', '%'}
  {
    if s != [] {
      OutputCharacters(s[..|s| - 1]);
    }
  }

  // -------------------------------------------------------------- magnet link

  const TOPIC: Bytes := "xt=urn:btih:"
  const DISPLAY_NAME: Bytes := "dn="
  const TRACKER: Bytes := "tr="

  function TrackerParam(t: Bytes): Bytes {
    "&tr=" + UrlEncoded(t)
  }

  function TrackerParams(trackers: seq<Bytes>): Bytes {
    if trackers == [] then [] else TrackerParam(trackers[0]) + TrackerParams(trackers[1..])
  }

  function MagnetLink(infohash: Bytes, name: Bytes, trackers: seq<Bytes>): Bytes {
    "magnet:?xt=urn:btih:" + infohash + "&dn=" + UrlEncoded(name) + TrackerParams(trackers)
  }

  lemma {:induction false} TrackerParamsSnoc(trackers: seq<Bytes>, t: Bytes)
    ensures TrackerParams(trackers + [t]) == TrackerParams(trackers) + TrackerParam(t)
  {
    if trackers == [] {
      assert TrackerParams([t]) == TrackerParam(t) + TrackerParams([t][1..]);
      assert trackers + [t] == [t];
    } else {
      TrackerParamsSnoc(trackers[1..], t);
      assert (trackers + [t])[1..] == trackers[1..] + [t];
      Associative(TrackerParam(trackers[0]), TrackerParams(trackers[1..]), TrackerParam(t));
    }
  }

  lemma NextParam(head: Bytes, trackers: seq<Bytes>, i: nat)
    requires i < |trackers|
    ensures head + TrackerParams(trackers[..i]) + "&tr=" + UrlEncoded(trackers[i]) == head + TrackerParams(trackers[..i + 1])
  {
    TrackerParamsSnoc(trackers[..i], trackers[i]);
    assert trackers[..i + 1] == trackers[..i] + [trackers[i]];
    Associative(head + TrackerParams(trackers[..i]), "&tr=", UrlEncoded(trackers[i]));
    Associative(head, TrackerParams(trackers[..i]), TrackerParam(trackers[i]));
  }

  method BuildMagnet(infohash: Bytes, name: Bytes, trackers: seq<Bytes>) returns (magnet: Bytes)
    ensures magnet == MagnetLink(infohash, name, trackers)
  {
    var dn := UrlEncode(name);
    magnet := "magnet:?xt=urn:btih:" + infohash + "&dn=" + dn;
    ghost var head := magnet;
    for i := 0 to |trackers|
      invariant magnet == head + TrackerParams(trackers[..i])
    {
      NextParam(head, trackers, i);
      var tr := UrlEncode(trackers[i]);
      magnet := magnet + "&tr=";
      magnet := magnet + tr;
    }
    assert trackers[..|trackers|] == trackers;
  }

  /** Cut a query string at every `&`. */
  function Fields(s: Bytes): (fields: seq<Bytes>)
    ensures |fields| >= 1
  {
    if s == [] then [[]]
    else if s[0] == '&' then [[]] + Fields(s[1..])
    else var rest := Fields(s[1..]); [[s[0]] + rest[0]] + rest[1..]
  }

  function FieldValue(field: Bytes, name: Bytes): Option<Bytes> {
    if name <= field then Some(field[|name|..]) else None
  }

  function DecodedField(field: Bytes, name: Bytes): Option<Bytes> {
    match FieldValue(field, name)
    case Some(v) => PercentDecode(v)
    case None => None
  }

  function TrackerFields(fields: seq<Bytes>): Option<seq<Bytes>> {
    if fields == [] then Some([])
    else match (DecodedField(fields[0], TRACKER), TrackerFields(fields[1..]))
      case (Some(t), Some(rest)) => Some([t] + rest)
      case _ => None
  }

  datatype Link = Link(infohash: Bytes, name: Bytes, trackers: seq<Bytes>)

  /** Read a link back: the exact topic, the display name, then the trackers. */
  function ParseMagnet(magnet: Bytes): Option<Link> {
    if !("magnet:?" <= magnet) then None
    else
      var fields := Fields(magnet[8..]);
      if |fields| < 2 then None
      else match (FieldValue(fields[0], TOPIC), DecodedField(fields[1], DISPLAY_NAME), TrackerFields(fields[2..]))
        case (Some(infohash), Some(name), Some(trackers)) => Some(Link(infohash, name, trackers))
        case _ => None
  }

  lemma {:induction false} FieldsOfOne(s: Bytes)
    requires '&' !in s
    ensures Fields(s) == [s]
  {
    if s != [] {
      FieldsOfOne(s[1..]);
      assert s == [s[0]] + s[1..];
    }
  }

  lemma {:induction false} FieldsSplit(s: Bytes, rest: Bytes)
    requires '&' !in s
    ensures Fields(s + "&" + rest) == [s] + Fields(rest)
  {
    var b := s + "&" + rest;
    if s == [] {
      assert b[0] == '&' && b[1..] == rest;
    } else {
      assert b[1..] == s[1..] + "&" + rest;
      FieldsSplit(s[1..], rest);
      assert s == [s[0]] + s[1..];
    }
  }

  lemma PrefixedField(name: Bytes, value: Bytes)
    ensures FieldValue(name + value, name) == Some(value)
  {}

  lemma TrackerFieldsCons(field: Bytes, fields: seq<Bytes>, t: Bytes, ts: seq<Bytes>)
    requires DecodedField(field, TRACKER) == Some(t) && TrackerFields(fields) == Some(ts)
    ensures TrackerFields([field] + fields) == Some([t] + ts)
  {
    assert ([field] + fields)[1..] == fields;
  }

  lemma Ampersand(s: Bytes, name: Bytes, value: Bytes, rest: Bytes)
    ensures s + ("&" + name + value + rest) == s + "&" + (name + value + rest)
  {}

  function TrackerField(t: Bytes): Bytes {
    TRACKER + UrlEncoded(t)
  }

  lemma TrackerFieldReads(t: Bytes)
    ensures '&' !in TrackerField(t) && DecodedField(TrackerField(t), TRACKER) == Some(t)
  {
    UrlEncodeRoundTrip(t);
    PrefixedField(TRACKER, UrlEncoded(t));
  }

  lemma TrackerParamsBegin(s: Bytes, trackers: seq<Bytes>)
    requires trackers != []
    ensures s + TrackerParams(trackers) == s + "&" + (TrackerField(trackers[0]) + TrackerParams(trackers[1..]))
  {
    assert "&tr=" == "&" + TRACKER;
    Ampersand(s, TRACKER, UrlEncoded(trackers[0]), TrackerParams(trackers[1..]));
  }

  lemma FirstTracker(s: Bytes, after: seq<Bytes>, field: Bytes, trackers: seq<Bytes>)
    requires trackers != [] && |after| >= 1 && after[0] == field
    requires DecodedField(field, TRACKER) == Some(trackers[0]) && TrackerFields(after[1..]) == Some(trackers[1..])
    ensures ([s] + after)[0] == s && TrackerFields(([s] + after)[1..]) == Some(trackers)
  {
    TrackerFieldsCons(field, after[1..], trackers[0], trackers[1..]);
    assert ([s] + after)[1..] == [field] + after[1..];
    assert trackers == [trackers[0]] + trackers[1..];
  }

  /** The parameter list that follows a field `s`, and how it splits. */
  lemma {:induction false} TrackerParamsSplit(s: Bytes, trackers: seq<Bytes>)
    requires '&' !in s
    ensures Fields(s + TrackerParams(trackers))[0] == s
    ensures TrackerFields(Fields(s + TrackerParams(trackers))[1..]) == Some(trackers)
    decreases |trackers|
  {
    if trackers == [] {
      FieldsOfOne(s);
      assert s + TrackerParams(trackers) == s;
    } else {
      var field, rest := TrackerField(trackers[0]), TrackerParams(trackers[1..]);
      TrackerParamsBegin(s, trackers);
      FieldsSplit(s, field + rest);
      TrackerFieldReads(trackers[0]);
      TrackerParamsSplit(field, trackers[1..]);
      FirstTracker(s, Fields(field + rest), field, trackers);
    }
  }

  lemma ParseFields(magnet: Bytes, query: Bytes, xt: Bytes, rest: Bytes, link: Link)
    requires magnet == "magnet:?" + query
    requires Fields(query) == [TOPIC + link.infohash] + Fields(rest)
    requires DecodedField(Fields(rest)[0], DISPLAY_NAME) == Some(link.name)
    requires TrackerFields(Fields(rest)[1..]) == Some(link.trackers)
    ensures ParseMagnet(magnet) == Some(link)
  {
    assert magnet[8..] == query;
    var fields := Fields(query);
    PrefixedField(TOPIC, link.infohash);
    assert fields[1] == Fields(rest)[0] && fields[2..] == Fields(rest)[1..];
  }

  lemma LinkShape(infohash: Bytes, value: Bytes, params: Bytes)
    ensures "magnet:?xt=urn:btih:" + infohash + "&dn=" + value + params
            == "magnet:?" + ((TOPIC + infohash) + "&" + (DISPLAY_NAME + value + params))
  {
    assert "magnet:?xt=urn:btih:" == "magnet:?" + TOPIC;
    assert "&dn=" == "&" + DISPLAY_NAME;
  }

  lemma TopicSplits(infohash: Bytes, rest: Bytes)
    requires '&' !in infohash
    ensures Fields((TOPIC + infohash) + "&" + rest) == [TOPIC + infohash] + Fields(rest)
  {
    assert '&' !in TOPIC;
    FieldsSplit(TOPIC + infohash, rest);
  }

  /** The fields after the topic are the name and the trackers. */
  lemma NameAndTrackersRead(name: Bytes, trackers: seq<Bytes>)
    ensures var fields := Fields(DISPLAY_NAME + UrlEncoded(name) + TrackerParams(trackers));
            && fields != [] && DecodedField(fields[0], DISPLAY_NAME) == Some(name)
            && TrackerFields(fields[1..]) == Some(trackers)
  {
    UrlEncodeRoundTrip(name);
    assert '&' !in DISPLAY_NAME;
    TrackerParamsSplit(DISPLAY_NAME + UrlEncoded(name), trackers);
    PrefixedField(DISPLAY_NAME, UrlEncoded(name));
  }

  /** A magnet link parses back to the infohash, the name and the whole tracker list. */
  lemma MagnetRoundTrip(infohash: Bytes, name: Bytes, trackers: seq<Bytes>)
    requires '&' !in infohash
    ensures ParseMagnet(MagnetLink(infohash, name, trackers)) == Some(Link(infohash, name, trackers))
  {
    var rest := DISPLAY_NAME + UrlEncoded(name) + TrackerParams(trackers);
    LinkShape(infohash, UrlEncoded(name), TrackerParams(trackers));
    TopicSplits(infohash, rest);
    NameAndTrackersRead(name, trackers);
    ParseFields(MagnetLink(infohash, name, trackers), (TOPIC + infohash) + "&" + rest, TOPIC + infohash, rest,
                Link(infohash, name, trackers));
  }

  /** The text of a link, one tracker after the other. */
  lemma LinkText(infohash: Bytes, name: Bytes, trackers: seq<Bytes>, t: Bytes)
    ensures MagnetLink(infohash, name, []) == "magnet:?xt=urn:btih:" + infohash + "&dn=" + UrlEncoded(name)
    ensures MagnetLink(infohash, name, trackers + [t]) == MagnetLink(infohash, name, trackers) + "&tr=" + UrlEncoded(t)
  {
    var head := "magnet:?xt=urn:btih:" + infohash + "&dn=" + UrlEncoded(name);
    TrackerParamsSnoc(trackers, t);
    Associative(head, TrackerParams(trackers), TrackerParam(t));
    Associative(head + TrackerParams(trackers), "&tr=", UrlEncoded(t));
  }

  /** Distinct torrents get distinct links. */
  lemma MagnetInjective(a: Link, b: Link)
    requires '&' !in a.infohash && '&' !in b.infohash
    requires MagnetLink(a.infohash, a.name, a.trackers) == MagnetLink(b.infohash, b.name, b.trackers)
    ensures a == b
  {
    MagnetRoundTrip(a.infohash, a.name, a.trackers);
    MagnetRoundTrip(b.infohash, b.name, b.trackers);
  }
}
