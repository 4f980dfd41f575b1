/** A fingerprint template on its way into the feature table and back: encrypted, encoded,
    copied as a C string and stored with its length as the sample number; then listed,
    decoded and decrypted. */
module TemplatePipeline {
  import opened Gf256
  import opened AesInPlace
  import opened Cfb
  import opened CfbInPlace
  import opened FeatureRows
  import opened FeatureGrouping
  import opened FeatureStore
  import opened FeatureRename
  import opened IndexAllocator
  import Base64

  /** The fixed initialization vector: the bytes 0 to 15. */
  function FixedVector(): Block {
    seq(16, i requires 0 <= i < 16 => i as Byte)
  }

  lemma FixedVectorIs()
    ensures FixedVector() ==
      [0x00, 0x01, 0x02, 0x03, 0x04, 0x05, 0x06, 0x07, 0x08, 0x09, 0x0a, 0x0b, 0x0c, 0x0d, 0x0e, 0x0f]
  {
  }

  function StoredText(key: seq<Byte>, data: seq<Byte>): (text: seq<Byte>)
    requires |key| >= 16
    ensures Base64.Readable(text)
  {
    var cipher := CfbEncrypt(AesUnder(key), FixedVector(), data);
    Base64.RoundTrip(cipher);
    Base64.Encode(cipher)
  }

  function LoadedBytes(key: seq<Byte>, text: seq<Byte>): seq<Byte>
    requires |key| >= 16 && Base64.Readable(text)
  {
    CfbDecrypt(AesUnder(key), FixedVector(), Base64.Decode(text))
  }

  /** The text is a C string of whole quadruples for as many bytes as the template has, and
      gives back the template. */
  lemma PipelineRoundTrip(key: seq<Byte>, data: seq<Byte>)
    requires |key| >= 16
    ensures Base64.Whole(StoredText(key, data)) && 0x00 !in StoredText(key, data)
    ensures |StoredText(key, data)| == Base64.TextLength(|data|)
    ensures |Base64.Decode(StoredText(key, data))| == |data|
    ensures LoadedBytes(key, StoredText(key, data)) == data
  {
    hide *;
    var e := AesUnder(key);
    var cipher := CfbEncrypt(e, FixedVector(), data);
    assert StoredText(key, data) == Base64.Encode(cipher) by { StoredTextIs(key, data); }
    Base64.EncodedIsText(cipher);
    Base64.RoundTrip(cipher);
    CfbRoundTrip(e, FixedVector(), data);
    LoadedBytesAre(key, StoredText(key, data));
  }

  lemma StoredTextIs(key: seq<Byte>, data: seq<Byte>)
    requires |key| >= 16
    ensures StoredText(key, data) == Base64.Encode(CfbEncrypt(AesUnder(key), FixedVector(), data))
  {
  }

  lemma LoadedBytesAre(key: seq<Byte>, text: seq<Byte>)
    requires |key| >= 16 && Base64.Readable(text)
    ensures LoadedBytes(key, text) == CfbDecrypt(AesUnder(key), FixedVector(), Base64.Decode(text))
  {
  }

  // ---------- The wrappers and the copy ----------

  method FixedIv() returns (iv: array<Byte>)
    ensures fresh(iv) && iv.Length == 16 && iv[..] == FixedVector()
  {
    iv := new Byte[16](_ => 0);
    for i := 0 to 16
      invariant forall k :: 0 <= k < i ==> iv[k] == FixedVector()[k]
    {
      iv[i] := i as Byte;
    }
  }

  /** community_internal_aes_encrypt */
  method AesEncrypt(input: array<Byte>, len: nat, key: array<Byte>, output: array<Byte>, w: array3<Elem>)
    requires Is11x4x4(w) && key.Length >= 16 && len <= input.Length && len <= output.Length
    requires output !in {input, key}
    modifies output, w
    ensures output[..len] == CfbEncrypt(AesUnder(key[..]), FixedVector(), input[..len])
  {
    hide *;
    var iv := FixedIv();
    var _ := Encrypt(key, iv, input, len, output, w);
    assert iv[..16] == iv[..];
  }

  /** community_internal_aes_decrypt */
  method AesDecrypt(input: array<Byte>, len: nat, key: array<Byte>, output: array<Byte>, w: array3<Elem>)
    requires Is11x4x4(w) && key.Length >= 16 && len <= input.Length && len <= output.Length
    requires output !in {input, key}
    modifies output, w
    ensures output[..len] == CfbDecrypt(AesUnder(key[..]), FixedVector(), input[..len])
  {
    hide *;
    var iv := FixedIv();
    var _ := Decrypt(key, iv, input, len, output, w);
    assert iv[..16] == iv[..];
  }

  /** bio_sto_new_str on the text in a buffer: the characters before the terminator. */
  method NewString(buffer: array<Byte>, ghost text: seq<Byte>) returns (copy: seq<Byte>)
    requires Base64.HoldsText(buffer, text)
    ensures copy == text
  {
    assert forall k :: 0 <= k < |text| ==> buffer[k] == text[k];
    var n := Base64.StrLen(buffer, |text|);
    return buffer[..n];
  }

  // ---------- Enrolment and loading ----------

  /** The encoded text as a new string. The buffer that enrolment allocates for it is two
      bytes per byte and one more, which a template of a single byte does not fit. */
  method EncodeString(featureData: array<Byte>) returns (text: seq<Byte>)
    requires featureData.Length != 1
    ensures text == Base64.Encode(featureData[..])
  {
    var size := featureData.Length;
    Base64.EncodedFits(size);
    hide *;
    var featureEncode := new Byte[size * 2 + 1];
    ghost var before, expected := featureEncode[..], Base64.Encode(featureData[..]);
    assert featureData[..size] == featureData[..];
    var len := Base64.EncodeInto(featureData, featureEncode, size);
    Base64.EncodedIsText(featureData[..]);
    TextInBuffer(before, featureEncode, expected);
    text := NewString(featureEncode, expected);
  }

  /** The text that on_enroll_completed stores. */
  method EncodeTemplate(data: array<Byte>, key: array<Byte>, w: array3<Elem>) returns (text: seq<Byte>)
    requires Is11x4x4(w) && key.Length >= 16 && data.Length != 1
    modifies w
    ensures text == StoredText(key[..], data[..])
  {
    hide *;
    var featureData := new Byte[data.Length];
    AesEncrypt(data, data.Length, key, featureData, w);
    assert data[..data.Length] == data[..] && featureData[..data.Length] == featureData[..];
    text := EncodeString(featureData);
    StoredTextIs(key[..], data[..]);
  }

  lemma TextInBuffer(before: seq<Byte>, buffer: array<Byte>, text: seq<Byte>)
    requires |text| < |before| && buffer[..] == Base64.Put(before, 0, text + [0x00]) && 0x00 !in text
    ensures Base64.HoldsText(buffer, text)
  {
  }

  function Zeros(n: nat): (zeros: seq<Byte>)
    ensures |zeros| == n
  {
    seq(n, _ => 0)
  }

  /** The bytes that create_prints gives to the library for one sample with the number `no`;
      `sampleData` holds the text of the sample and its terminator. A text that decodes to fewer
      bytes than its sample number is decrypted with zeros behind it. */
  method DecodeTemplate(sampleData: array<Byte>, no: nat, key: array<Byte>, w: array3<Elem>, ghost text: seq<Byte>)
    returns (storedData: array<Byte>)
    requires Is11x4x4(w) && key.Length >= 16
    requires Base64.HoldsText(sampleData, text) && Base64.Readable(text) && |Base64.Decode(text)| <= no
    modifies w
    ensures fresh(storedData) && storedData.Length == no
    ensures storedData[..] ==
      CfbDecrypt(AesUnder(key[..]), FixedVector(), Base64.Decode(text) + Zeros(no - |Base64.Decode(text)|))
    ensures storedData[..|Base64.Decode(text)|] == LoadedBytes(key[..], text)
  {
    hide *;
    var templateData := new Byte[no](_ => 0);
    storedData := new Byte[no](_ => 0);
    ghost var before, decoded := templateData[..], Base64.Decode(text);
    ZerosAre(before, no);
    var j := Base64.DecodeInto(sampleData, templateData, text);
    PutFirst(before, decoded);
    assert templateData[..no] == templateData[..];
    AesDecrypt(templateData, no, key, storedData, w);
    assert storedData[..no] == storedData[..];
    LoadedBytesAre(key[..], text);
    DecryptedFirst(AesUnder(key[..]), decoded, Zeros(no - |decoded|));
    assert storedData[..|decoded|] == storedData[..][..|decoded|];
  }

  lemma ZerosAre(before: seq<Byte>, n: nat)
    requires |before| == n && forall k :: 0 <= k < n ==> before[k] == 0
    ensures before == Zeros(n)
  {
  }

  lemma PutFirst(before: seq<Byte>, data: seq<Byte>)
    requires |data| <= |before| && before == Zeros(|before|)
    ensures Base64.Put(before, 0, data) == data + Zeros(|before| - |data|)
  {
  }

  lemma DecryptedFirst(e: Block -> Block, data: seq<Byte>, rest: seq<Byte>)
    ensures |CfbDecrypt(e, FixedVector(), data + rest)| == |data| + |rest|
    ensures CfbDecrypt(e, FixedVector(), data + rest)[..|data|] == CfbDecrypt(e, FixedVector(), data)
  {
    assert (data + rest)[..|data|] == data;
    hide FixedVector; hide CfbDecrypt;
    DecryptionIsCausal(e, FixedVector(), data + rest, |data|);
  }

  // ---------- Through the table ----------

  /** One stored template: a free index of a user, and the sample that enrolment adds. */
  function EnrolledInfo(key: Key, indexName: string, text: seq<Byte>, size: nat): Info {
    Info(key.uid, key.biotype, key.driver, key.index, indexName, [Sample(-1, size, text)])
  }

  /** The entry that loading finds. */
  function LoadedInfo(key: Key, indexName: string, id: int, text: seq<Byte>, size: nat): Info {
    Info(key.uid, key.biotype, key.driver, key.index, indexName, [Sample(id, size, text)])
  }

  /** The entry is the one of its feature in the list. */
  ghost predicate FindsOnly(list: seq<Info>, key: Key, entry: Info) {
    entry in list && forall info :: info in list && InfoKey(info) == key ==> info == entry
  }

  /** What loading finds: the entry, or nothing of the sort. */
  ghost predicate Finds(list: seq<Info>, key: Key, entry: Info, cursor: seq<Row>) {
    && (if key.uid != -1 || NobodyFirst(cursor) then FindsOnly(list, key, entry) else entry !in list)
    && (key.uid != -1 && key.index != -1 ==> list == [entry])
  }

  /** Enrolment under an unused index followed by loading from this index: the list has the new
      feature with one sample, which decodes to the template, whatever else the table holds. For
      the uid -1 this is so exactly if the query selects no row of a lower uid. */
  lemma EnrolledIsLoaded(users: int -> string, rows: seq<Row>, id: int, key: Key, indexName: string,
                         aesKey: seq<Byte>, data: seq<Byte>, cursor: seq<Row>)
    requires |aesKey| >= 16 && key.biotype >= 0 && Numbered(rows, id)
    requires !Used(WithNobody(users), rows, key.uid, key.biotype, key.driver, key.index)
    requires
      var sample := Sample(-1, |data|, StoredText(aesKey, data));
      var info := Info(key.uid, key.biotype, key.driver, key.index, indexName, [sample]);
      Answers(cursor, FeatureRange(key), rows + Flatten(users, [info], id))
    requires key.uid == -1 ==> forall u :: users(u) != ""
    ensures Typed(cursor)
    ensures
      var text := StoredText(aesKey, data);
      && Finds(Run(users, cursor).list, key,
               Info(key.uid, key.biotype, key.driver, key.index, indexName, [Sample(id, |data|, text)]), cursor)
      && |Base64.Decode(text)| == |data| && LoadedBytes(aesKey, text) == data
  {
    PipelineRoundTrip(aesKey, data);
    var text := StoredText(aesKey, data);
    InfosAre(key, indexName, id, text, |data|);
    hide *;
    EnrolledIsListed(users, rows, id, key, indexName, text, |data|, cursor);
  }

  lemma InfosAre(key: Key, indexName: string, id: int, text: seq<Byte>, size: nat)
    ensures EnrolledInfo(key, indexName, text, size) ==
      Info(key.uid, key.biotype, key.driver, key.index, indexName, [Sample(-1, size, text)])
    ensures LoadedInfo(key, indexName, id, text, size) ==
      Info(key.uid, key.biotype, key.driver, key.index, indexName, [Sample(id, size, text)])
  {
  }

  lemma OneRow(users: int -> string, info: Info, id: int)
    requires |info.samples| == 1
    ensures Flatten(users, [info], id) == [RowFor(WithNobody(users)(info.uid), info, info.samples[0], id)]
  {
    FlattenPrefix(users, [info], 0, id);
    assert [info][..1] == [info] && [info][..0] == [];
    assert [info][0] in [info];
    assert SampleRows(WithNobody(users)(info.uid), info, 0, id) == [];
  }

  lemma EnrolledIsListed(users: int -> string, rows: seq<Row>, id: int, key: Key, indexName: string,
                         text: seq<Byte>, size: nat, cursor: seq<Row>)
    requires key.biotype >= 0 && Numbered(rows, id)
    requires !Used(WithNobody(users), rows, key.uid, key.biotype, key.driver, key.index)
    requires Answers(cursor, FeatureRange(key), rows + Flatten(users, [EnrolledInfo(key, indexName, text, size)], id))
    requires key.uid == -1 ==> forall u :: users(u) != ""
    ensures Typed(cursor)
    ensures Finds(Run(users, cursor).list, key, LoadedInfo(key, indexName, id, text, size), cursor)
  {
    var info := EnrolledInfo(key, indexName, text, size);
    var r := RowFor(WithNobody(users)(key.uid), info, info.samples[0], id);
    assert r.id == id && Visible(WithNobody(users), r) && FeatureGrouping.KeyOf(r) == key && r.indexName == indexName;
    assert LoadedInfo(key, indexName, id, text, size) == EntryOf(key, r);
    assert |info.samples| == 1 && info.uid == key.uid;
    AddedIsNumbered(rows, id, r);
    assert DistinctIds(rows + [r]) && Alone(users, rows, key, r);
    hide *;
    OneRow(users, info, id);
    AnswersAreDelivered(cursor, FeatureRange(key), rows + [r]);
    QueryTyped(rows + [r], key, cursor);
    RowIsListed(users, rows, key, r, cursor);
  }

  function EntryOf(key: Key, r: Row): Info {
    Info(key.uid, key.biotype, key.driver, key.index, r.indexName, [SampleOf(r)])
  }

  /** A row that is alone with its key. */
  ghost predicate Alone(users: int -> string, rows: seq<Row>, key: Key, r: Row) {
    && Visible(WithNobody(users), r) && FeatureGrouping.KeyOf(r) == key && DistinctIds(rows + [r])
    && !Used(WithNobody(users), rows, key.uid, key.biotype, key.driver, key.index)
  }

  lemma RowIsListed(users: int -> string, rows: seq<Row>, key: Key, r: Row, cursor: seq<Row>)
    requires key.biotype >= 0 && Typed(cursor) && Answers(cursor, FeatureRange(key), rows + [r])
    requires Alone(users, rows, key, r) && (key.uid == -1 ==> forall u :: users(u) != "")
    ensures Finds(Run(users, cursor).list, key, EntryOf(key, r), cursor)
  {
    hide EntryOf; hide Run; hide Used; hide WithNobody; hide Answers; hide Typed; hide FindsOnly; hide Sorted;
    CursorFacts(rows, key, r, cursor);
    hide DistinctIds;
    if key.uid != -1 {
      UsersRow(users, rows, key, r, cursor);
    } else if NobodyFirst(cursor) {
      NobodysRow(users, rows, key, r, cursor);
    } else {
      UnseenRow(users, rows, key, r, cursor);
    }
  }

  lemma CursorFacts(rows: seq<Row>, key: Key, r: Row, cursor: seq<Row>)
    requires Answers(cursor, FeatureRange(key), rows + [r]) && DistinctIds(rows + [r])
    requires FeatureGrouping.KeyOf(r) == key
    ensures Sorted(cursor) && r in cursor && DistinctIds(cursor) && forall s :: s in cursor ==> s in rows + [r]
  {
    var q := FeatureRange(key);
    AnswersContain(cursor, q, rows + [r]);
    SelectDistinct(q, rows + [r]);
    ArrangementDistinct(cursor, Select(q, rows + [r]));
    assert r in rows + [r];
  }

  /** Of any of the rows, it is the only one that is shown with its key. */
  lemma OnlyShown(users: int -> string, owners: int -> string, rows: seq<Row>, key: Key, r: Row, part: seq<Row>)
    requires Alone(users, rows, key, r) && owners(key.uid) == WithNobody(users)(key.uid)
    requires DistinctIds(part) && r in part && forall s :: s in part ==> s in rows + [r]
    ensures RowsWithKey(owners, part, key) == [r]
  {
    var shown := RowsWithKey(owners, part, key);
    ShownDistinct(owners, part, key);
    hide RowsWithKey; hide WithNobody;
    RowsWithKeyMember(owners, part, key, r);
    assert r in shown && forall k :: 0 <= k < |shown| ==> shown[k] in shown;
    forall k | 0 <= k < |shown| ensures shown[k] == r {
      RowsWithKeyMember(owners, part, key, shown[k]);
    }
    assert |shown| > 1 ==> shown[0].id != shown[1].id;
  }

  /** On an index that shows just this row of the feature. */
  lemma IndexHasEntry(owners: int -> string, part: seq<Row>, key: Key, r: Row, list: seq<Info>)
    requires IsIndex(owners, part, list) && RowsWithKey(owners, part, key) == [r]
    ensures EntryOf(key, r) in list
    ensures forall i :: 0 <= i < |list| && InfoKey(list[i]) == key ==> list[i] == EntryOf(key, r)
  {
    assert SamplesOf([r]) == [SampleOf(r)];
    FeatureListed(owners, part, key, list);
    hide IsIndex; hide RowsWithKey; hide SamplesOf;
  }

  lemma UsersRow(users: int -> string, rows: seq<Row>, key: Key, r: Row, cursor: seq<Row>)
    requires key.uid != -1 && key.biotype >= 0 && Typed(cursor) && Answers(cursor, FeatureRange(key), rows + [r])
    requires Alone(users, rows, key, r) && DistinctIds(cursor) && r in cursor
    requires forall s :: s in cursor ==> s in rows + [r]
    ensures
      var list := Run(users, cursor).list;
      FindsOnly(list, key, EntryOf(key, r)) && (key.index != -1 ==> list == [EntryOf(key, r)])
  {
    var owners, list := Owners(users, cursor), Run(users, cursor).list;
    OwnerOfUser(users, cursor, key.uid);
    assert WithNobody(users)(key.uid) == users(key.uid);
    hide *;
    AnswersAreDelivered(cursor, FeatureRange(key), rows + [r]);
    OneUserPlain(users, rows + [r], key, cursor);
    ListIsIndex(users, rows + [r], key, cursor);
    OnlyShown(users, owners, rows, key, r, cursor);
    IndexHasEntry(owners, cursor, key, r, list);
    ListFinds(list, key, r);
    if key.index != -1 {
      OnlyFeature(owners, rows + [r], key, cursor, list);
      OneEntry(list, EntryOf(key, r));
    }
  }

  lemma ListFinds(list: seq<Info>, key: Key, r: Row)
    requires EntryOf(key, r) in list
    requires forall i :: 0 <= i < |list| && InfoKey(list[i]) == key ==> list[i] == EntryOf(key, r)
    ensures FindsOnly(list, key, EntryOf(key, r))
  {
    hide EntryOf;
  }

  lemma OneEntry(list: seq<Info>, entry: Info)
    requires entry in list && |list| <= 1
    ensures list == [entry]
  {
  }

  lemma NobodysRow(users: int -> string, rows: seq<Row>, key: Key, r: Row, cursor: seq<Row>)
    requires key.uid == -1 && key.biotype >= 0 && Typed(cursor) && Sorted(cursor) && forall u :: users(u) != ""
    requires Alone(users, rows, key, r) && DistinctIds(cursor) && r in cursor
    requires forall s :: s in cursor ==> s in rows + [r]
    requires NobodyFirst(cursor)
    ensures FindsOnly(Run(users, cursor).list, key, EntryOf(key, r))
  {
    assert r.uid == -1;
    hide *;
    var n := NobodysRows(cursor);
    var part, owners := cursor[..n], Owners(users, cursor);
    TypedPrefix(cursor, n);
    SortedPrefix(cursor, n);
    PartFacts(rows, r, cursor, n);
    NobodysOwners(users, cursor, n, r);
    OnlyShown(users, owners, rows, key, r, part);
    OwnUuid(users, rows, key, r, part);
    OthersApart(users, cursor, n);
    OwnStays(users, cursor, n);
    OwnEntryStays(users, cursor, n, key, r);
  }

  lemma OwnEntryStays(users: int -> string, cursor: seq<Row>, n: nat, key: Key, r: Row)
    requires key.uid == -1 && Sorted(cursor) && Typed(cursor) && n <= |cursor| && Typed(cursor[..n])
    requires (forall s :: s in cursor[..n] ==> s.uid == -1) && forall s :: s in cursor[n..] ==> s.uid > -1
    requires Owners(users, cursor[..n]) == Owners(users, cursor)
    requires RowsWithKey(Owners(users, cursor), cursor[..n], key) == [r]
    requires Run(users, cursor[..n]).list <= Run(users, cursor).list
    ensures FindsOnly(Run(users, cursor).list, key, EntryOf(key, r))
  {
    var owners, own, list := Owners(users, cursor), Run(users, cursor[..n]).list, Run(users, cursor).list;
    hide *;
    NobodysEntries(users, cursor, n);
    IndexHasEntry(owners, cursor[..n], key, r, own);
    OthersUids(own, list, owners, cursor[n..]);
    OwnEntryOnly(own, list, key, r);
  }

  lemma PartFacts(rows: seq<Row>, r: Row, cursor: seq<Row>, n: nat)
    requires n <= |cursor| && r in cursor && r.uid == -1 && (forall s :: s in cursor[n..] ==> s.uid > -1)
    requires DistinctIds(cursor) && forall s :: s in cursor ==> s in rows + [r]
    ensures r in cursor[..n] && DistinctIds(cursor[..n]) && forall s :: s in cursor[..n] ==> s in rows + [r]
  {
    assert cursor == cursor[..n] + cursor[n..];
  }

  /** After the rows of the uid -1 the pass remembers the empty UUID. */
  lemma OwnUuid(users: int -> string, rows: seq<Row>, key: Key, r: Row, part: seq<Row>)
    requires key.uid == -1 && Alone(users, rows, key, r) && r in part && Sorted(part) && Typed(part)
    requires forall s :: s in part ==> s.uid == -1
    ensures Run(users, part).oldUuid == ""
  {
    var owners := Owners(users, part);
    assert part[0] in part && owners == WithNobody(users) && OwnersOf(users, owners, part);
    assert Visible(owners, r) && (LastVisible(owners, part).Some? ==> LastVisible(owners, part).value in part);
    OneUserNoStaleMerge(owners, part, -1);
    RunLists(users, owners, part);
    hide Run; hide Sorted; hide Typed; hide NoStaleMerge; hide Listed; hide LastVisible;
  }

  lemma OthersApart(users: int -> string, cursor: seq<Row>, n: nat)
    requires n <= |cursor| && (forall s :: s in cursor[n..] ==> s.uid > -1) && forall u :: users(u) != ""
    ensures forall s :: s in cursor[n..] && Visible(Owners(users, cursor), s) ==> s.uuid != ""
  {
  }

  lemma OwnStays(users: int -> string, cursor: seq<Row>, n: nat)
    requires Sorted(cursor) && Typed(cursor) && n <= |cursor| && Typed(cursor[..n])
    requires forall s :: s in cursor[n..] && Visible(Owners(users, cursor), s) ==>
      s.uuid != Run(users, cursor[..n]).oldUuid
    ensures Run(users, cursor[..n]).list <= Run(users, cursor).list
  {
    hide *;
    CursorSplits(users, cursor, n);
    LaterRowsApart(users, Owners(users, cursor), cursor[..n], cursor[n..]);
  }

  lemma OwnEntryOnly(own: seq<Info>, list: seq<Info>, key: Key, r: Row)
    requires key.uid == -1 && own <= list && EntryOf(key, r) in own
    requires forall i :: 0 <= i < |own| && InfoKey(own[i]) == key ==> own[i] == EntryOf(key, r)
    requires forall k :: |own| <= k < |list| ==> list[k].uid != -1
    ensures FindsOnly(list, key, EntryOf(key, r))
  {
    hide EntryOf;
    forall info | info in list && InfoKey(info) == key ensures info == EntryOf(key, r) {
      var k :| 0 <= k < |list| && list[k] == info;
    }
  }

  /** With a lower uid before it the row is compared with the UUID of the uid -1. */
  lemma UnseenRow(users: int -> string, rows: seq<Row>, key: Key, r: Row, cursor: seq<Row>)
    requires key.uid == -1 && Typed(cursor) && Sorted(cursor) && (forall u :: users(u) != "")
    requires Alone(users, rows, key, r) && DistinctIds(cursor) && r in cursor && !NobodyFirst(cursor)
    ensures EntryOf(key, r) !in Run(users, cursor).list
  {
    var list := Run(users, cursor).list;
    FirstIsLeast(cursor);
    if EntryOf(key, r) in list {
      var i: nat :| i < |list| && list[i] == EntryOf(key, r);
      hide Run; hide Sorted; hide Typed;
      var s := ListedIsVisible(users, cursor, i, SampleOf(r));
      SameId(cursor, s, r);
      assert false;
    }
  }

  lemma SameId(cursor: seq<Row>, s: Row, r: Row)
    requires DistinctIds(cursor) && s in cursor && r in cursor && SampleOf(s) == SampleOf(r)
    ensures s == r
  {
    var i :| 0 <= i < |cursor| && cursor[i] == s;
    var j :| 0 <= j < |cursor| && cursor[j] == r;
  }
}
