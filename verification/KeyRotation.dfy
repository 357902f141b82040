/** Stored API keys: how they are encrypted, and the rotation of all of them to a new key in one
    transaction. */
module KeyRotation {
  import Text
  import opened Wrappers

  datatype Error = Validation | Encryption | RotationFailed | SameKeyId

  type Bytes = seq<bv8>

  /** Standard base64 (section 4 of RFC 4648). */
  datatype Base64 = Base64(encode: Bytes -> string, decode: string -> Option<Bytes>)

  ghost predicate SoundBase64(codec: Base64) {
    forall b :: codec.decode(codec.encode(b)) == Some(b) && forall i :: 0 <= i < |codec.encode(b)| ==>
      codec.encode(b)[i] != ':' && !Text.IsSpace(codec.encode(b)[i])
  }

  /** An authenticated cipher; the key id is the additional data. `ready` is false for a cipher
      that was never set up. */
  datatype Cipher = Cipher(
    ready: bool, keyId: string, nonceSize: nat,
    seal: (Bytes, string, string) -> Bytes, open: (Bytes, Bytes, string) -> Option<string>)

  /** What setting up a cipher establishes. */
  ghost predicate Sound(c: Cipher) {
    && c.keyId != "" && ':' !in c.keyId
    && (forall nonce, plain, id ::
          c.seal(nonce, plain, id) != [] && c.open(nonce, c.seal(nonce, plain, id), id) == Some(plain))
  }

  const VERSION := "v1"
  const MAX_KEY_LENGTH := 4096

  /** Both ciphers are there, with key ids. */
  predicate Loaded(oldCipher: Cipher, newCipher: Cipher) {
    oldCipher.ready && newCipher.ready && oldCipher.keyId != "" && newCipher.keyId != ""
  }

  predicate Encryptable(plain: string) {
    Text.TrimSpace(plain) != "" && |Text.TrimSpace(plain)| <= MAX_KEY_LENGTH
  }

  function Encrypt(codec: Base64, c: Cipher, plain: string, nonce: Bytes): Result<string, Error> {
    var trimmed := Text.TrimSpace(plain);
    if trimmed == "" || |trimmed| > MAX_KEY_LENGTH then Err(Validation)
    else if !c.ready then Err(Encryption)
    else Ok(VERSION + ":" + c.keyId + ":" + codec.encode(nonce + c.seal(nonce, trimmed, c.keyId)))
  }

  function Decrypt(codec: Base64, c: Cipher, encrypted: string): Result<string, Error> {
    var trimmed := Text.TrimSpace(encrypted);
    if trimmed == "" || !c.ready then Err(Encryption)
    else DecryptParts(codec, c, Text.Split(trimmed, ':'))
  }

  function DecryptParts(codec: Base64, c: Cipher, parts: seq<string>): Result<string, Error> {
    if |parts| != 3 || parts[0] != VERSION || parts[1] == "" || parts[1] != c.keyId then Err(Encryption)
    else
      match codec.decode(parts[2])
      case None => Err(Encryption)
      case Some(payload) =>
        if |payload| <= c.nonceSize then Err(Encryption)
        else
          match c.open(payload[..c.nonceSize], payload[c.nonceSize..], parts[1])
          case None => Err(Encryption)
          case Some(plain) => Ok(plain)
  }

  // ---------------------------------------------------------------------------------------
  // The payload format.

  lemma {:induction false} PayloadSplits(id: string, encoded: string)
    requires ':' !in id && ':' !in encoded
    ensures Text.Split(VERSION + ":" + id + ":" + encoded, ':') == [VERSION, id, encoded]
  {
    var parts := [VERSION, id, encoded];
    assert parts[1..] == [id, encoded] && parts[1..][1..] == [encoded];
    assert Text.Join(parts[1..], ':') == id + ":" + encoded;
    assert VERSION + ":" + id + ":" + encoded == VERSION + (":" + (id + ":" + encoded));
    assert Text.Join(parts, ':') == VERSION + ":" + id + ":" + encoded;
    Text.SplitJoin(parts, ':');
  }

  lemma PayloadIsTrimmed(codec: Base64, id: string, payload: Bytes)
    requires SoundBase64(codec)
    ensures Text.Trimmed(VERSION + ":" + id + ":" + codec.encode(payload))
  {
    var encoded := codec.encode(payload);
    assert codec.decode(encoded) == Some(payload);
    var e := VERSION + ":" + id + ":" + encoded;
    assert e[0] == 'v';
    assert e[|e| - 1] == if encoded == "" then ':' else encoded[|encoded| - 1];
  }

  /** What a cipher has encrypted it decrypts to the trimmed key; a cipher with another key id
      rejects it. */
  lemma DecryptEncrypt(codec: Base64, c: Cipher, plain: string, nonce: Bytes, other: Cipher)
    requires SoundBase64(codec) && Sound(c) && |nonce| == c.nonceSize && Encrypt(codec, c, plain, nonce).Ok?
    ensures var e := Encrypt(codec, c, plain, nonce).value;
      && Decrypt(codec, c, e) == Ok(Text.TrimSpace(plain))
      && (other.keyId != c.keyId ==> Decrypt(codec, other, e) == Err(Encryption))
  {
    var trimmed := Text.TrimSpace(plain);
    var payload := nonce + c.seal(nonce, trimmed, c.keyId);
    assert codec.decode(codec.encode(payload)) == Some(payload);
    assert ':' !in codec.encode(payload);
    PayloadSplits(c.keyId, codec.encode(payload));
    PayloadIsTrimmed(codec, c.keyId, payload);
    assert payload[..c.nonceSize] == nonce && payload[c.nonceSize..] == c.seal(nonce, trimmed, c.keyId);
    assert c.open(nonce, c.seal(nonce, trimmed, c.keyId), c.keyId) == Some(trimmed);
  }

  /** A key is encrypted if and only if there is a cipher and around spaces it has one to 4096 characters;
      the result names the format and the key id. */
  lemma EncryptIs(codec: Base64, c: Cipher, plain: string, nonce: Bytes, result: string)
    ensures var trimmed, e := Text.TrimSpace(plain), Encrypt(codec, c, plain, nonce);
      && (e.Ok? <==> c.ready && 1 <= |trimmed| <= 4096)
      && (e == Err(Validation) <==> trimmed == "" || |trimmed| > 4096)
      && (e == Ok(result) ==>
            result == "v1:" + c.keyId + ":" + codec.encode(nonce + c.seal(nonce, trimmed, c.keyId)))
  {
    assert VERSION + ":" == "v1:";
  }

  /** What is decrypted: just what, around spaces, names the format and the cipher's key id and then holds
      a nonce and a text that the cipher opens. */
  ghost predicate Opens(codec: Base64, c: Cipher, encrypted: string, text: string, payload: Bytes, plain: string) {
    && c.ready && c.keyId != "" && ':' !in c.keyId && ':' !in text
    && Text.TrimSpace(encrypted) == "v1:" + c.keyId + ":" + text
    && codec.decode(text) == Some(payload) && |payload| > c.nonceSize
    && c.open(payload[..c.nonceSize], payload[c.nonceSize..], c.keyId) == Some(plain)
  }

  lemma DecryptIs(codec: Base64, c: Cipher, encrypted: string, plain: string)
    ensures Decrypt(codec, c, encrypted) == Ok(plain) <==>
      exists text, payload :: Opens(codec, c, encrypted, text, payload, plain)
    ensures Decrypt(codec, c, encrypted).Err? ==> Decrypt(codec, c, encrypted).error == Encryption
  {
    var trimmed := Text.TrimSpace(encrypted);
    if text, payload :| Opens(codec, c, encrypted, text, payload, plain) {
      PayloadSplits(c.keyId, text);
      assert VERSION + ":" == "v1:";
    }
    if Decrypt(codec, c, encrypted) == Ok(plain) {
      var parts := Text.Split(trimmed, ':');
      PartsJoin(trimmed, parts);
      assert Opens(codec, c, encrypted, parts[2], codec.decode(parts[2]).value, plain);
    }
  }

  lemma {:induction false} PartsJoin(s: string, parts: seq<string>)
    requires parts == Text.Split(s, ':') && |parts| == 3 && parts[0] == "v1"
    ensures s == "v1:" + parts[1] + ":" + parts[2]
    ensures ':' !in parts[1] && ':' !in parts[2]
  {
    Text.JoinSplit(s, ':');
    assert parts[1..][1..] == [parts[2]];
    assert Text.Join(parts[1..], ':') == parts[1] + ":" + parts[2];
    assert s == "v1" + ":" + (parts[1] + ":" + parts[2]);
    assert "v1" + ":" == "v1:";
    assert parts[1] in parts && parts[2] in parts;
  }

  // ---------------------------------------------------------------------------------------
  // Rotation.

  datatype Row = Row(tenant: string, id: string, deleted: bool, encrypted: string, hint: string,
      keyUpdatedAt: Option<int>)

  datatype Summary = Summary(providers: nat, erased: nat, applied: bool)

  predicate Erased(row: Row) {
    row.encrypted == "" && row.hint == "" && row.keyUpdatedAt == None
  }

  /** The row can be rotated: a deleted one always, another if it holds a key of the old cipher
      that the new one accepts. */
  predicate Rotatable(codec: Base64, oldCipher: Cipher, row: Row) {
    row.deleted
      || (Decrypt(codec, oldCipher, row.encrypted).Ok? && Encryptable(Decrypt(codec, oldCipher, row.encrypted).value))
  }

  /** What rotation makes of a row: a key under the new cipher, everything else as it was; of a
      deleted provider nothing of its key. */
  predicate IsRotated(codec: Base64, oldCipher: Cipher, newCipher: Cipher, row: Row, rotated: Row) {
    if row.deleted then rotated == row.(encrypted := "", hint := "", keyUpdatedAt := None)
    else
      && rotated == row.(encrypted := rotated.encrypted)
      && Decrypt(codec, oldCipher, row.encrypted).Ok?
      && Decrypt(codec, newCipher, rotated.encrypted)
        == Ok(Text.TrimSpace(Decrypt(codec, oldCipher, row.encrypted).value))
      && Decrypt(codec, oldCipher, rotated.encrypted).Err?
  }

  function LiveCount(rows: seq<Row>): nat {
    if rows == [] then 0 else LiveCount(rows[..|rows| - 1]) + if rows[|rows| - 1].deleted then 0 else 1
  }

  function EraseCount(rows: seq<Row>): nat {
    if rows == [] then 0
    else EraseCount(rows[..|rows| - 1]) + if rows[|rows| - 1].deleted && !Erased(rows[|rows| - 1]) then 1 else 0
  }

  predicate TableRotated(codec: Base64, oldCipher: Cipher, newCipher: Cipher, before: seq<Row>, after: seq<Row>) {
    |after| == |before| && forall i :: 0 <= i < |before| ==> IsRotated(codec, oldCipher, newCipher, before[i], after[i])
  }

  /** The first i rows have been gone through, and the others are as before. */
  predicate RotatedTo(codec: Base64, oldCipher: Cipher, newCipher: Cipher, apply: bool, before: seq<Row>,
      after: seq<Row>, i: nat) {
    && |after| == |before| && i <= |before|
    && (forall j :: 0 <= j < i ==> Rotatable(codec, oldCipher, before[j]))
    && (forall j :: i <= j < |before| ==> after[j] == before[j])
    && (if apply then forall j :: 0 <= j < i ==> IsRotated(codec, oldCipher, newCipher, before[j], after[j])
        else after == before)
  }

  lemma RotatedOneMore(codec: Base64, oldCipher: Cipher, newCipher: Cipher, apply: bool, before: seq<Row>,
      now: seq<Row>, next: seq<Row>, i: nat)
    requires i < |before| && RotatedTo(codec, oldCipher, newCipher, apply, before, now, i)
      && Rotatable(codec, oldCipher, before[i])
    requires |next| == |now| && forall j :: 0 <= j < |now| && j != i ==> next[j] == now[j]
    requires if apply then IsRotated(codec, oldCipher, newCipher, before[i], next[i]) else next == now
    ensures RotatedTo(codec, oldCipher, newCipher, apply, before, next, i + 1)
  {
  }

  lemma CountsOneMore(rows: seq<Row>, i: nat)
    requires i < |rows|
    ensures LiveCount(rows[..i + 1]) == LiveCount(rows[..i]) + if rows[i].deleted then 0 else 1
    ensures EraseCount(rows[..i + 1]) == EraseCount(rows[..i]) + if rows[i].deleted && !Erased(rows[i]) then 1 else 0
  {
    assert rows[..i + 1][..i] == rows[..i];
  }

  /** Where the rows are that are of some kind. */
  ghost function Places(rows: seq<Row>, kind: Row -> bool): set<int> {
    set i | 0 <= i < |rows| && kind(rows[i])
  }

  lemma OneMorePlace(rows: seq<Row>, kind: Row -> bool)
    requires rows != []
    ensures |Places(rows, kind)| == |Places(rows[..|rows| - 1], kind)| + if kind(rows[|rows| - 1]) then 1 else 0
  {
    var n := |rows| - 1;
    assert Places(rows, kind) == Places(rows[..n], kind) + if kind(rows[n]) then {n} else {};
  }

  predicate HoldsKey(row: Row) {
    row.encrypted != "" || row.hint != "" || row.keyUpdatedAt != None
  }

  /** The counts are the numbers of rows not deleted, and of deleted ones with something to erase. */
  lemma {:induction false} CountsAre(rows: seq<Row>)
    ensures LiveCount(rows) == |Places(rows, (row: Row) => !row.deleted)|
    ensures EraseCount(rows) == |Places(rows, (row: Row) => row.deleted && HoldsKey(row))|
  {
    if rows != [] {
      CountsAre(rows[..|rows| - 1]);
      OneMorePlace(rows, (row: Row) => !row.deleted);
      OneMorePlace(rows, (row: Row) => row.deleted && HoldsKey(row));
    }
  }

  class ProviderTable {
    const codec: Base64
    var rows: seq<Row>

    constructor (codec: Base64, rows: seq<Row>)
      ensures this.codec == codec && this.rows == rows
    {
      this.codec, this.rows := codec, rows;
    }

    /** Writes a row; the database reports how many rows that changed. */
    method WriteRow(i: nat, row: Row) returns (affected: nat)
      requires i < |rows|
      modifies this
      ensures rows == old(rows)[i := row] && affected == if old(rows)[i] == row then 0 else 1
    {
      affected := if rows[i] == row then 0 else 1;
      rows := rows[i := row];
    }

    /** One row; `nonce` is the randomness of its encryption. */
    method RotateRow(oldCipher: Cipher, newCipher: Cipher, apply: bool, i: nat, nonce: Bytes, summary: Summary)
      returns (ok: bool, summary': Summary)
      requires SoundBase64(codec) && Sound(oldCipher) && Sound(newCipher) && oldCipher.ready && newCipher.ready
        && oldCipher.keyId != newCipher.keyId
      requires i < |rows| && |nonce| == newCipher.nonceSize
      modifies this
      ensures ok <==> Rotatable(codec, oldCipher, old(rows)[i])
      ensures ok ==> |rows| == old(|rows|) && forall j :: 0 <= j < |rows| && j != i ==> rows[j] == old(rows)[j]
      ensures ok && !apply ==> rows == old(rows)
      ensures ok && apply ==> IsRotated(codec, oldCipher, newCipher, old(rows)[i], rows[i])
      ensures ok ==> var row := old(rows)[i];
        summary' == summary.(providers := summary.providers + if row.deleted then 0 else 1,
                             erased := summary.erased + if row.deleted && !Erased(row) then 1 else 0)
    {
      var row := rows[i];
      summary' := summary;
      if row.deleted {
        ok := true;
        if !Erased(row) {
          summary' := summary.(erased := summary.erased + 1);
          if apply {
            var affected := WriteRow(i, row.(encrypted := "", hint := "", keyUpdatedAt := None));
            ok := affected == 1;
          }
        }
        return;
      }
      summary' := summary.(providers := summary.providers + 1);
      var plain := Decrypt(codec, oldCipher, row.encrypted);
      if plain.Err? {
        return false, summary';
      }
      var encrypted := Encrypt(codec, newCipher, plain.value, nonce);
      if encrypted.Err? {
        return false, summary';
      }
      DecryptEncrypt(codec, newCipher, plain.value, nonce, oldCipher);
      ok := true;
      if apply {
        var affected := WriteRow(i, row.(encrypted := encrypted.value));
        ok := affected == 1;
      }
    }

    /** Rotates every stored key, or none. A dry run reports what applying would. */
    method Rotate(oldCipher: Cipher, newCipher: Cipher, apply: bool, nonces: seq<Bytes>)
        returns (r: Result<Summary, Error>)
      requires SoundBase64(codec)
      requires oldCipher.ready && oldCipher.keyId != "" ==> Sound(oldCipher)
      requires newCipher.ready && newCipher.keyId != "" ==> Sound(newCipher)
      requires |nonces| == |rows| && forall i :: 0 <= i < |nonces| ==> |nonces[i]| == newCipher.nonceSize
      modifies this
      ensures !Loaded(oldCipher, newCipher) ==> r == Err(RotationFailed)
      ensures Loaded(oldCipher, newCipher) && oldCipher.keyId == newCipher.keyId ==> r == Err(SameKeyId)
      ensures Loaded(oldCipher, newCipher) && oldCipher.keyId != newCipher.keyId ==>
        && (r.Ok? <==> forall i :: 0 <= i < |old(rows)| ==> Rotatable(codec, oldCipher, old(rows)[i]))
        && (r.Err? ==> r.error == RotationFailed)
      ensures r.Ok? ==> r.value == Summary(LiveCount(old(rows)), EraseCount(old(rows)), apply)
      ensures r.Ok? && apply ==> TableRotated(codec, oldCipher, newCipher, old(rows), rows)
      ensures r.Err? || !apply ==> rows == old(rows)
    {
      if !oldCipher.ready || !newCipher.ready || oldCipher.keyId == "" || newCipher.keyId == "" {
        return Err(RotationFailed);
      }
      if oldCipher.keyId == newCipher.keyId {
        return Err(SameKeyId);
      }
      r := RotateRows(oldCipher, newCipher, apply, nonces);
    }

    /** The transaction: all rows in turn, or on the first that fails none. */
    method RotateRows(oldCipher: Cipher, newCipher: Cipher, apply: bool, nonces: seq<Bytes>)
        returns (r: Result<Summary, Error>)
      requires SoundBase64(codec) && Sound(oldCipher) && Sound(newCipher) && oldCipher.ready && newCipher.ready
        && oldCipher.keyId != newCipher.keyId
      requires |nonces| == |rows| && forall i :: 0 <= i < |nonces| ==> |nonces[i]| == newCipher.nonceSize
      modifies this
      ensures r.Ok? ==> RotatedTo(codec, oldCipher, newCipher, apply, old(rows), rows, |old(rows)|)
      ensures r.Ok? ==> r.value == Summary(LiveCount(old(rows)), EraseCount(old(rows)), apply)
      ensures r.Err? ==> r.error == RotationFailed && rows == old(rows)
      ensures r.Err? ==> exists i :: 0 <= i < |old(rows)| && !Rotatable(codec, oldCipher, old(rows)[i])
    {
      var before := rows;
      var summary := Summary(0, 0, apply);
      for i := 0 to |before|
        invariant RotatedTo(codec, oldCipher, newCipher, apply, before, rows, i)
        invariant summary == Summary(LiveCount(before[..i]), EraseCount(before[..i]), apply)
      {
        ghost var now := rows;
        var ok;
        ok, summary := RotateRow(oldCipher, newCipher, apply, i, nonces[i], summary);
        if !ok {
          rows := before;
          return Err(RotationFailed);
        }
        RotatedOneMore(codec, oldCipher, newCipher, apply, before, now, rows, i);
        CountsOneMore(before, i);
      }
      assert before[..|before|] == before;
      return Ok(summary);
    }
  }

  /** The key of a row that is not deleted was made by encryption, from that plaintext. */
  predicate EncryptedFrom(codec: Base64, c: Cipher, row: Row, plain: string, nonce: Bytes) {
    !row.deleted ==> |nonce| == c.nonceSize && Encrypt(codec, c, plain, nonce) == Ok(row.encrypted)
  }

  /** Over keys that encryption has made, every row can be rotated, and rotation keeps each key's
      plaintext under the new cipher. */
  lemma EncryptedKeysSurvive(codec: Base64, oldCipher: Cipher, newCipher: Cipher, plain: string, nonce: Bytes,
      row: Row, rotated: Row)
    requires SoundBase64(codec) && Sound(oldCipher) && EncryptedFrom(codec, oldCipher, row, plain, nonce)
    ensures Rotatable(codec, oldCipher, row)
    ensures IsRotated(codec, oldCipher, newCipher, row, rotated) ==>
      if row.deleted then Erased(rotated)
      else Decrypt(codec, newCipher, rotated.encrypted) == Decrypt(codec, oldCipher, row.encrypted)
        == Ok(Text.TrimSpace(plain))
  {
    if !row.deleted {
      DecryptEncrypt(codec, oldCipher, plain, nonce, oldCipher);
    }
  }

  /** The whole table: over keys made by encryption every row can be rotated, so rotation succeeds;
      then each provider keeps its key, under the new cipher, and a deleted one has none left. */
  lemma EncryptedTableSurvives(codec: Base64, oldCipher: Cipher, newCipher: Cipher, before: seq<Row>, after: seq<Row>,
                               plains: seq<string>, nonces: seq<Bytes>)
    requires SoundBase64(codec) && Sound(oldCipher) && |plains| == |nonces| == |before|
    requires forall i :: 0 <= i < |before| ==> EncryptedFrom(codec, oldCipher, before[i], plains[i], nonces[i])
    ensures forall i :: 0 <= i < |before| ==> Rotatable(codec, oldCipher, before[i])
    ensures TableRotated(codec, oldCipher, newCipher, before, after) ==>
      forall i :: 0 <= i < |before| ==>
        if before[i].deleted then Erased(after[i])
        else Decrypt(codec, newCipher, after[i].encrypted) == Decrypt(codec, oldCipher, before[i].encrypted)
          == Ok(Text.TrimSpace(plains[i]))
  {
    forall i | 0 <= i < |before| ensures Rotatable(codec, oldCipher, before[i]) {
      EncryptedKeysSurvive(codec, oldCipher, newCipher, plains[i], nonces[i], before[i], before[i]);
    }
    if TableRotated(codec, oldCipher, newCipher, before, after) {
      forall i | 0 <= i < |before|
        ensures if before[i].deleted then Erased(after[i])
                else Decrypt(codec, newCipher, after[i].encrypted) == Decrypt(codec, oldCipher, before[i].encrypted)
                  == Ok(Text.TrimSpace(plains[i]))
      {
        EncryptedKeysSurvive(codec, oldCipher, newCipher, plains[i], nonces[i], before[i], after[i]);
      }
    }
  }

  /** The tables a completed rotation leaves cannot be rotated from the old key again unless no
      provider is left, and can be rotated from the new one. */
  lemma RotatedFromNewOnly(codec: Base64, oldCipher: Cipher, newCipher: Cipher, row: Row, rotated: Row)
    requires IsRotated(codec, oldCipher, newCipher, row, rotated) && Rotatable(codec, oldCipher, row)
    ensures Rotatable(codec, oldCipher, rotated) <==> row.deleted
    ensures Rotatable(codec, newCipher, rotated)
    ensures row.deleted ==> Erased(rotated)
  {
  }
}
