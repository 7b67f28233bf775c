/** The byte formats: tenant-framed keys, the persistent rung's records and the graph rung's hex text. */
module Codecs {
  import opened Entry
  import opened Words
  import opened Integrity

  // ---------------------------------------------------------------- tenant framing

  const TENANT_SEPARATOR: Byte := 0

  /** The frame of a tenant and a key: neither half can be mistaken for part of the other. */
  function Frame(tenant: Bytes, key: Bytes): Bytes {
    tenant + [TENANT_SEPARATOR] + key
  }

  /** Write the frame into the caller's buffer, or refuse and leave it alone. */
  method FrameTenantKey(tenant: Bytes, key: Bytes, buf: array<Byte>) returns (r: Result<nat>)
    modifies buf
    ensures r.Ok? <==> TENANT_SEPARATOR !in tenant && |Frame(tenant, key)| <= buf.Length
    ensures r.Ok? ==> r.value == |Frame(tenant, key)| && buf[..r.value] == Frame(tenant, key)
    ensures r.Ok? ==> buf[r.value..] == old(buf[r.value..])
    ensures r.Err? ==> r.error.ConfigurationError? && buf[..] == old(buf[..])
  {
    if TENANT_SEPARATOR in tenant {
      return Err(ConfigurationError);
    }
    var needed := |tenant| + 1 + |key|;
    if needed > buf.Length {
      return Err(ConfigurationError);
    }
    var frame := Frame(tenant, key);
    for i := 0 to needed
      invariant buf[..i] == frame[..i] && buf[needed..] == old(buf[needed..])
    {
      buf[i] := if i < |tenant| then tenant[i] else if i == |tenant| then TENANT_SEPARATOR else key[i - |tenant| - 1];
    }
    r := Ok(needed);
  }

  /** The manager frames keys in a buffer of 256 bytes, the key module's limit is 512: a frame between the two is refused. */
  const MANAGER_KEY_SIZE: nat := 256

  method FrameOfMiddlingSizeIsRefused(tenant: Bytes, key: Bytes) returns (r: Result<nat>)
    requires TENANT_SEPARATOR !in tenant
    ensures |Frame(tenant, key)| <= 512 ==> (r.Err? <==> |Frame(tenant, key)| > 256)
  {
    var buf := new Byte[MANAGER_KEY_SIZE];
    r := FrameTenantKey(tenant, key, buf);
  }

  /** For one, an unnamed tenant's key of 256 bytes. */
  method KeyOf256BytesIsRefused() returns (r: Result<nat>)
    ensures r == Err(ConfigurationError)
  {
    var key: Bytes := seq(256, _ => 1);
    var buf := new Byte[MANAGER_KEY_SIZE];
    r := FrameTenantKey([], key, buf);
  }

  /** The first zero byte. */
  function FirstZero(bytes: Bytes, i: nat): (k: nat)
    requires i <= |bytes|
    ensures i <= k <= |bytes|
    decreases |bytes| - i
  {
    if i == |bytes| || bytes[i] == TENANT_SEPARATOR then i else FirstZero(bytes, i + 1)
  }

  /** Splitting at the first zero byte recovers the tenant and the key. */
  lemma {:induction false} FrameSplits(tenant: Bytes, key: Bytes, i: nat)
    requires TENANT_SEPARATOR !in tenant && i <= |tenant|
    ensures FirstZero(Frame(tenant, key), i) == |tenant|
    ensures Frame(tenant, key)[..|tenant|] == tenant && Frame(tenant, key)[|tenant| + 1..] == key
    decreases |tenant| - i
  {
    if i < |tenant| {
      assert tenant[i] in tenant;
      FrameSplits(tenant, key, i + 1);
    }
  }

  /** No two tenants share a framed key. */
  lemma FramingIsInjective(t1: Bytes, k1: Bytes, t2: Bytes, k2: Bytes)
    requires TENANT_SEPARATOR !in t1 && TENANT_SEPARATOR !in t2 && Frame(t1, k1) == Frame(t2, k2)
    ensures t1 == t2 && k1 == k2
  {
    FrameSplits(t1, k1, 0);
    FrameSplits(t2, k2, 0);
  }

  // ---------------------------------------------------------------- persistent records

  const NO_EXPIRY: Word := 0

  const EXPIRY_LEN: nat := 8

  const PREFIX_LEN: nat := 24

  predicate IsExpired(deadline: nat, now: Word) {
    deadline != NO_EXPIRY && now >= deadline
  }

  /** The value type whose encoding is its bytes. */
  function AsIs(payload: Bytes): Result<Bytes> {
    Ok(payload)
  }

  /** The absolute deadline of a TTL, saturating. */
  function Deadline(ttl: Option<Word>, now: Word): Word {
    if ttl.None? then NO_EXPIRY else if now + ttl.value < WORD then now + ttl.value else WORD - 1
  }

  /** A record that reads back, at any later time, as its payload until its deadline and as nothing from then on. Its fields are the deadline, the payload's digest and the payload. */
  method BuildRecord(payload: Bytes, ttl: Option<Word>, now: Word) returns (record: Bytes)
    ensures |record| == PREFIX_LEN + |payload| && record[PREFIX_LEN..] == payload
    ensures FromLe(record[..EXPIRY_LEN]) == Deadline(ttl, now) && FromLe(record[EXPIRY_LEN..PREFIX_LEN]) == Digest(payload)
    ensures forall later: Word :: DecodeRecord(record, later, AsIs) ==
              if ttl.None? || (now == 0 && ttl.value == 0) || later < Min(now + ttl.value, WORD - 1) then Ok(Some((Deadline(ttl, now), payload)))
              else Ok(None)
  {
    RecordParts(payload, Deadline(ttl, now));
    record := [];
    record := record + ToLe(Deadline(ttl, now), EXPIRY_LEN);
    record := record + ToLe(Digest(payload), PREFIX_LEN - EXPIRY_LEN);
    record := record + payload;
    assert record == Record(payload, Deadline(ttl, now));
  }

  /** The fields determine the record. */
  lemma FieldsDetermineRecord(raw: Bytes, payload: Bytes, deadline: Word)
    requires |raw| == PREFIX_LEN + |payload| && raw[PREFIX_LEN..] == payload
    requires FromLe(raw[..EXPIRY_LEN]) == deadline && FromLe(raw[EXPIRY_LEN..PREFIX_LEN]) == Digest(payload)
    ensures raw == Record(payload, deadline)
  {
    var good := Record(payload, deadline);
    RecordParts(payload, deadline);
    FromLeIsInjective(raw[..EXPIRY_LEN], good[..EXPIRY_LEN]);
    FromLeIsInjective(raw[EXPIRY_LEN..PREFIX_LEN], good[EXPIRY_LEN..PREFIX_LEN]);
    assert raw == raw[..EXPIRY_LEN] + raw[EXPIRY_LEN..PREFIX_LEN] + raw[PREFIX_LEN..];
    assert good == good[..EXPIRY_LEN] + good[EXPIRY_LEN..PREFIX_LEN] + good[PREFIX_LEN..];
  }

  function Record(payload: Bytes, deadline: Word): (record: Bytes)
    ensures |record| == PREFIX_LEN + |payload|
  {
    ToLe(deadline, EXPIRY_LEN) + ToLe(Digest(payload), PREFIX_LEN - EXPIRY_LEN) + payload
  }

  function DecodeRecord<V>(raw: Bytes, now: Word, decode: Bytes -> Result<V>): Result<Option<(nat, V)>> {
    if |raw| < PREFIX_LEN then Err(SerializationFailed)
    else
      var deadline := FromLe(raw[..EXPIRY_LEN]);
      if IsExpired(deadline, now) then Ok(None)
      else
        var payload := raw[PREFIX_LEN..];
        if Digest(payload) != FromLe(raw[EXPIRY_LEN..PREFIX_LEN]) then Err(Corrupted)
        else
          var v := decode(payload);
          if v.Err? then Err(v.error) else Ok(Some((deadline, v.value)))
  }

  lemma RecordParts(payload: Bytes, deadline: Word)
    ensures var raw := Record(payload, deadline);
            FromLe(raw[..EXPIRY_LEN]) == deadline
            && FromLe(raw[EXPIRY_LEN..PREFIX_LEN]) == Digest(payload)
            && raw[PREFIX_LEN..] == payload
  {
    var raw := Record(payload, deadline);
    Pow2Of64();
    Pow2Of128();
    FromLeToLe(deadline, EXPIRY_LEN);
    FromLeToLe(Digest(payload), PREFIX_LEN - EXPIRY_LEN);
    assert raw[..EXPIRY_LEN] == ToLe(deadline, EXPIRY_LEN);
    assert raw[EXPIRY_LEN..PREFIX_LEN] == ToLe(Digest(payload), PREFIX_LEN - EXPIRY_LEN);
    assert raw[PREFIX_LEN..] == payload;
  }

  /** An unexpired record gives back its deadline and whatever its payload decodes to. */
  lemma RecordRoundTrips<V>(payload: Bytes, deadline: Word, now: Word, decode: Bytes -> Result<V>)
    ensures DecodeRecord(Record(payload, deadline), now, decode) ==
            if IsExpired(deadline, now) then Ok(None)
            else if decode(payload).Err? then Err(decode(payload).error)
            else Ok(Some((deadline, decode(payload).value)))
  {
    RecordParts(payload, deadline);
  }

  /** A record too short to hold its frame is malformed; otherwise an expired one is absent, whatever else is wrong with it. */
  lemma LengthThenDeadline<V>(raw: Bytes, now: Word, decode: Bytes -> Result<V>)
    ensures |raw| < 24 ==> DecodeRecord(raw, now, decode) == Err(SerializationFailed)
    ensures |raw| >= 24 ==>
              var deadline := FromLe(raw[..8]);
              (DecodeRecord(raw, now, decode) == Ok(None) <==> deadline != 0 && now >= deadline)
  {
  }

  /** Any one damaged byte of the digest or the payload is reported, never decoded. */
  lemma DamagedRecordIsRefused<V>(payload: Bytes, deadline: Word, now: Word, raw: Bytes, p: nat, decode: Bytes -> Result<V>)
    requires DifferOnlyAt(Record(payload, deadline), raw, p) && p >= EXPIRY_LEN && !IsExpired(deadline, now)
    ensures DecodeRecord(raw, now, decode) == Err(Corrupted)
  {
    var good := Record(payload, deadline);
    RecordParts(payload, deadline);
    assert raw[..EXPIRY_LEN] == good[..EXPIRY_LEN];
    if p < PREFIX_LEN {
      assert raw[PREFIX_LEN..] == payload;
      var x, y := good[EXPIRY_LEN..PREFIX_LEN], raw[EXPIRY_LEN..PREFIX_LEN];
      assert x[p - EXPIRY_LEN] != y[p - EXPIRY_LEN];
      if FromLe(x) == FromLe(y) {
        FromLeIsInjective(x, y);
      }
    } else {
      assert raw[EXPIRY_LEN..PREFIX_LEN] == good[EXPIRY_LEN..PREFIX_LEN];
      var y := raw[PREFIX_LEN..];
      assert DifferOnlyAt(payload, y, p - PREFIX_LEN);
      OneByteChangesTheDigest(payload, y, p - PREFIX_LEN);
    }
  }

  /** So one damaged byte is noticed exactly when it is not one of the eight that hold the deadline. */
  lemma DamageIsNoticedIff<V>(payload: Bytes, deadline: Word, now: Word, raw: Bytes, p: nat, decode: Bytes -> Result<V>)
    requires DifferOnlyAt(Record(payload, deadline), raw, p) && !IsExpired(deadline, now) && decode(payload).Ok?
    ensures DecodeRecord(raw, now, decode) == Err(Corrupted) <==> p >= EXPIRY_LEN
  {
    if p >= EXPIRY_LEN {
      DamagedRecordIsRefused(payload, deadline, now, raw, p, decode);
    } else {
      var good := Record(payload, deadline);
      RecordParts(payload, deadline);
      assert raw[EXPIRY_LEN..PREFIX_LEN] == good[EXPIRY_LEN..PREFIX_LEN];
      assert raw[PREFIX_LEN..] == good[PREFIX_LEN..];
    }
  }

  /** The deadline is outside the digest: a damaged one turns a live record into an expired one unnoticed. */
  lemma DamagedDeadlineCanExpire<V>(payload: Bytes, decode: Bytes -> Result<V>)
    ensures var raw := Record(payload, NO_EXPIRY)[0 := 1];
            DifferOnlyAt(Record(payload, NO_EXPIRY), raw, 0) && DecodeRecord(raw, 1, decode) == Ok(None)
  {
    var good := Record(payload, NO_EXPIRY);
    var raw := good[0 := 1];
    RecordParts(payload, NO_EXPIRY);
    LowByte(good[..EXPIRY_LEN], 1);
    assert raw[..EXPIRY_LEN] == good[..EXPIRY_LEN][0 := 1];
  }

  // ---------------------------------------------------------------- hex text

  function HexDigit(d: nat): (c: char)
    requires d < 16
  {
    "0123456789abcdef"[d]
  }

  /** The value of a hex digit, of either case. */
  function DigitValue(c: char): (r: Option<nat>)
    ensures r.Some? ==> r.value < 16
  {
    if '0' <= c <= '9' then Some(c as int - '0' as int)
    else if 'a' <= c <= 'f' then Some(c as int - 'a' as int + 10)
    else if 'A' <= c <= 'F' then Some(c as int - 'A' as int + 10)
    else None
  }

  function Hex(bytes: Bytes): (text: string)
    ensures |text| == 2 * |bytes|
  {
    if bytes == [] then ""
    else
      var last := bytes[|bytes| - 1];
      Hex(bytes[..|bytes| - 1]) + [HexDigit(last / 16), HexDigit(last % 16)]
  }

  method HexEncode(bytes: Bytes) returns (out: string)
    ensures out == Hex(bytes)
  {
    out := "";
    for i := 0 to |bytes|
      invariant out == Hex(bytes[..i])
    {
      assert bytes[..i + 1][..i] == bytes[..i];
      out := out + [HexDigit(bytes[i] / 16), HexDigit(bytes[i] % 16)];
    }
    assert bytes[..|bytes|] == bytes;
  }

  /** Every character of the text is a hex digit. */
  predicate IsHex(text: string) {
    forall i :: 0 <= i < |text| ==> DigitValue(text[i]).Some?
  }

  /** Accepts exactly even-length hex text, and returns the byte of each pair. */
  method HexDecode(text: string) returns (r: Result<Bytes>)
    ensures r.Ok? <==> |text| % 2 == 0 && IsHex(text)
    ensures r.Err? ==> r.error.SerializationFailed?
    ensures r.Ok? ==> |r.value| == |text| / 2
    ensures r.Ok? ==> forall i :: 0 <= i < |r.value| ==>
              r.value[i] == DigitValue(text[2 * i]).value * 16 + DigitValue(text[2 * i + 1]).value
  {
    if |text| % 2 != 0 {
      return Err(SerializationFailed);
    }
    var out: Bytes := [];
    for k := 0 to |text| / 2
      invariant |out| == k && forall i :: 0 <= i < 2 * k ==> DigitValue(text[i]).Some?
      invariant forall i :: 0 <= i < k ==>
                  out[i] == DigitValue(text[2 * i]).value * 16 + DigitValue(text[2 * i + 1]).value
    {
      var hi, lo := DigitValue(text[2 * k]), DigitValue(text[2 * k + 1]);
      if hi.None? || lo.None? {
        return Err(SerializationFailed);
      }
      out := out + [hi.value * 16 + lo.value];
    }
    r := Ok(out);
  }

  lemma DigitRoundTrips(d: nat)
    requires d < 16
    ensures DigitValue(HexDigit(d)) == Some(d)
  {
    assert HexDigit(d) == if d < 10 then '0' + d as char else 'a' + (d - 10) as char;
  }

  /** Digits are written in lower case and read in either, and no other character is one. */
  lemma DigitsOfEitherCase(d: nat, c: char)
    requires d < 16
    ensures c !in "0123456789abcdefABCDEF" ==> DigitValue(c).None?
    ensures HexDigit(d) == "0123456789abcdef"[d]
    ensures DigitValue("0123456789abcdef"[d]) == Some(d) && DigitValue("0123456789ABCDEF"[d]) == Some(d)
  {
    DigitRoundTrips(d);
    assert d >= 10 ==> "0123456789ABCDEF"[d] == 'A' + (d - 10) as char;
    assert d < 10 ==> "0123456789ABCDEF"[d] == '0' + d as char;
    if DigitValue(c).Some? {
      var all := "0123456789abcdefABCDEF";
      assert c == if c <= '9' then all[c as int - '0' as int] else if c >= 'a' then all[10 + (c as int - 'a' as int)] else all[16 + (c as int - 'A' as int)];
    }
  }

  /** The text's pairs of digits spell exactly these bytes. */
  lemma {:induction false} HexSpellsBytes(bytes: Bytes, i: nat)
    requires i < |bytes|
    ensures DigitValue(Hex(bytes)[2 * i]) == Some(bytes[i] / 16) && DigitValue(Hex(bytes)[2 * i + 1]) == Some(bytes[i] % 16)
  {
    if i < |bytes| - 1 {
      HexSpellsBytes(bytes[..|bytes| - 1], i);
    } else {
      DigitRoundTrips(bytes[i] / 16);
      DigitRoundTrips(bytes[i] % 16);
    }
  }

  /** Decoding undoes encoding, for every byte string. */
  method HexRoundTrips(bytes: Bytes) returns (r: Result<Bytes>)
    ensures r == Ok(bytes)
  {
    var text := HexEncode(bytes);
    HexIsAccepted(bytes);
    r := HexDecode(text);
    forall i | 0 <= i < |bytes| ensures r.value[i] == bytes[i] {
      HexSpellsBytes(bytes, i);
    }
    assert r.value == bytes;
  }

  lemma {:induction false} HexIsAccepted(bytes: Bytes)
    ensures IsHex(Hex(bytes))
  {
    if bytes != [] {
      HexIsAccepted(bytes[..|bytes| - 1]);
    }
  }
}
