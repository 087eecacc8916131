/**
  Store keys. The service names its objects with three key shapes; `Key` is what
  a key means and `KeyText` is how it is spelled in the store.
 */
module Keys {
  import opened Bytes

  datatype Key =
    | Meta(id: string)
    | Data(id: string, version: nat)
    | Payment(paymentId: string)

  const BACKUPS := "backups/"
  const PAYMENTS := "payments/"
  const META_SUFFIX := "/meta"

  function KeyText(k: Key): string {
    match k
    case Meta(id) => BACKUPS + id + META_SUFFIX
    case Data(id, version) => BACKUPS + id + "/v" + Decimal(version)
    case Payment(paymentId) => PAYMENTS + paymentId
  }

  predicate StartsWith(s: string, prefix: string) {
    prefix <= s
  }

  predicate EndsWith(s: string, suffix: string) {
    |suffix| <= |s| && s[|s| - |suffix|..] == suffix
  }

  lemma LastCharacter(k: Key)
    requires !k.Payment?
    ensures IsDigit(KeyText(k)[|KeyText(k)| - 1]) <==> k.Data?
    ensures k.Meta? ==> KeyText(k)[|KeyText(k)| - 1] == 'a'
  {
    var text := KeyText(k);
    match k {
      case Meta(_) => assert text[|text| - 1] == META_SUFFIX[4];
      case Data(_, version) =>
        DecimalReadsBack(version);
        assert text[|text| - 1] == Decimal(version)[|Decimal(version)| - 1];
    }
  }

  /** The digits after the last 'v' are determined, since no digit is one. */
  lemma DigitsAfterV(p1: string, d1: string, p2: string, d2: string)
    requires AllDigits(d1) && AllDigits(d2)
    requires p1 + "v" + d1 == p2 + "v" + d2
    ensures |d1| == |d2| && p1 == p2 && d1 == d2
  {
    var s1, s2 := p1 + "v" + d1, p2 + "v" + d2;
    assert s1[|p1|] == 'v' && s2[|p2|] == 'v';
    assert !IsDigit('v') && |p1| == |p2|;
    assert s1[..|p1|] == p1 && s2[..|p2|] == p2;
    assert s1[|p1| + 1..] == d1 && s2[|p2| + 1..] == d2;
  }

  lemma DataTextParts(id: string, version: nat)
    ensures KeyText(Data(id, version)) == (BACKUPS + id + "/") + "v" + Decimal(version)
  {
    assert "/v" == "/" + "v";
  }

  /** The digits that end a data key are the version and nothing else. */
  lemma DataTextInjective(id1: string, v1: nat, id2: string, v2: nat)
    requires KeyText(Data(id1, v1)) == KeyText(Data(id2, v2))
    ensures id1 == id2 && v1 == v2
  {
    var p1, p2 := BACKUPS + id1 + "/", BACKUPS + id2 + "/";
    DecimalReadsBack(v1);
    DecimalReadsBack(v2);
    DataTextParts(id1, v1);
    DataTextParts(id2, v2);
    DigitsAfterV(p1, Decimal(v1), p2, Decimal(v2));
    DecimalInjective(v1, v2);
    assert p1[|BACKUPS|..|p1| - 1] == id1 && p2[|BACKUPS|..|p2| - 1] == id2;
  }

  lemma MetaTextInjective(id1: string, id2: string)
    requires KeyText(Meta(id1)) == KeyText(Meta(id2))
    ensures id1 == id2
  {
    var s := KeyText(Meta(id1));
    assert s[8..|s| - 5] == id1 && s[8..|s| - 5] == id2;
  }

  /** Manifest, data and payment keys never collide, whatever the ids and versions. */
  lemma KeyTextInjective(k1: Key, k2: Key)
    requires KeyText(k1) == KeyText(k2)
    ensures k1 == k2
  {
    var s := KeyText(k1);
    assert s[0] == (if k1.Payment? then 'p' else 'b') == (if k2.Payment? then 'p' else 'b');
    match (k1, k2) {
      case (Meta(id1), Meta(id2)) => MetaTextInjective(id1, id2);
      case (Data(id1, v1), Data(id2, v2)) => DataTextInjective(id1, v1, id2, v2);
      case (Payment(p1), Payment(p2)) => assert s[9..] == p1 == p2;
      case _ =>
        if !k1.Payment? {
          LastCharacter(k1);
          LastCharacter(k2);
        }
    }
  }

  /** A prefix scan of "backups/" kept to "/meta" endings picks out the manifests exactly. */
  lemma ManifestKeysByText(k: Key)
    ensures StartsWith(KeyText(k), "backups/") && EndsWith(KeyText(k), "/meta") <==> k.Meta?
    ensures StartsWith(KeyText(k), "payments/") <==> k.Payment?
    ensures BACKUPS == "backups/" && META_SUFFIX == "/meta" && PAYMENTS == "payments/"
  {
    var s := KeyText(k);
    assert s[0] == if k.Payment? then 'p' else 'b';
    match k {
      case Meta(id) =>
        assert s == BACKUPS + (id + META_SUFFIX);
        assert s[|s| - 5..] == META_SUFFIX;
      case Data(id, version) =>
        LastCharacter(k);
        assert META_SUFFIX[4] == 'a';
      case Payment(_) =>
    }
    if StartsWith(s, BACKUPS) {
      assert s[0] == BACKUPS[0] == 'b';
    }
    if StartsWith(s, PAYMENTS) {
      assert s[0] == PAYMENTS[0] == 'p';
    }
  }
}
