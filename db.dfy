/**
 * The entry store of src/db.c: a DBM file holding the submitted POST bodies
 * under keys "entry_0000", "entry_0001", … and, under the counter name, the
 * next sequence number as a native `int`.
 *
 * The DBM is a map from key datum to value datum. A string datum carries its
 * terminating NUL (MAKE_CONST_DATUM, include/db.h:28). The failures of
 * `dbm_open` and `dbm_store` are inputs (`Faults`): the DBM library itself is
 * not part of this model.
 */
module Db {
  import opened Common

  type Store = map<seq<Byte>, seq<Byte>>

  /** MAKE_CONST_DATUM (db.h:28): the bytes of a C string followed by its NUL terminator. */
  function Datum(s: string): (d: seq<Byte>)
    ensures |d| == |s| + 1 && d[|s|] == 0
    ensures d[..|s|] == Bytes(s)
  {
    Bytes(s) + [0]
  }

  /** The counter name handle_post_request passes to store_post_entry. */
  const PK_NAME: string := "entry_id"

  // ---------------------------------------------------------------------------
  // The native int: sizeof(int) == 4, two's complement, little-endian
  // ---------------------------------------------------------------------------

  type Int32 = x: int | -0x8000_0000 <= x < 0x8000_0000

  /** memcpy of an `int` into a 4-byte datum (store_int, db.c:45-65). */
  function EncodeInt(x: Int32): (b: seq<Byte>)
    ensures |b| == 4
  {
    var u := if x < 0 then x + 0x1_0000_0000 else x;
    [u % 0x100, (u / 0x100) % 0x100, (u / 0x1_0000) % 0x100, u / 0x100_0000]
  }

  /** memcpy of a 4-byte datum into an `int` (retrieve_int, db.c:110-125). */
  function DecodeInt(b: seq<Byte>): Int32
    requires |b| == 4
  {
    var u := (b[0] as int) + 0x100 * (b[1] as int) + 0x1_0000 * (b[2] as int) + 0x100_0000 * (b[3] as int);
    if u >= 0x8000_0000 then u - 0x1_0000_0000 else u
  }

  /** Reading back a stored int gives the int that was stored. */
  lemma DecodeEncode(x: Int32)
    ensures DecodeInt(EncodeInt(x)) == x
  {
    var u := if x < 0 then x + 0x1_0000_0000 else x;
    var q1 := u / 0x100;
    var q2 := q1 / 0x100;
    var q3 := q2 / 0x100;
    assert u == u % 0x100 + 0x100 * q1;
    assert q1 == q1 % 0x100 + 0x100 * q2;
    assert q2 == q2 % 0x100 + 0x100 * q3;
    assert q2 == u / 0x1_0000;
    assert q3 == u / 0x100_0000;
    assert u == u % 0x100 + 0x100 * (q1 % 0x100) + 0x1_0000 * (q2 % 0x100) + 0x100_0000 * q3;
  }

  /** `current_id++` on an `int`: the model wraps at 2^31 as two's complement hardware does. */
  function Increment(x: Int32): (y: Int32)
    ensures x < 0x7fff_ffff ==> y == x + 1
  {
    if x == 0x7fff_ffff then -0x8000_0000 else x + 1
  }

  // ---------------------------------------------------------------------------
  // Reading the store
  // ---------------------------------------------------------------------------

  /**
   * retrieve_int (db.c:110-125): the int under `key`, or nothing when the key
   * is absent or its value is not exactly sizeof(int) bytes long.
   */
  function RetrieveInt(m: Store, key: string): (r: Option<Int32>)
    ensures r.Some? <==> Datum(key) in m && |m[Datum(key)]| == 4
  {
    var k := Datum(key);
    if k in m && |m[k]| == 4 then Some(DecodeInt(m[k])) else None
  }

  /** retrieve_byte (db.c:127-152): NULL for an absent key, otherwise a copy of the stored bytes. */
  function RetrieveByte(m: Store, key: seq<Byte>): (r: Option<seq<Byte>>)
    ensures r.None? <==> key !in m
    ensures r.Some? ==> r.value == m[key]
  {
    if key in m then Some(m[key]) else None
  }

  /** The id store_post_entry uses: the stored counter, or 0 when there is none (db.c:78-83). */
  function CurrentId(m: Store, pkName: string): Int32
  {
    match RetrieveInt(m, pkName)
    case Some(id) => id
    case None => 0
  }

  /** The key formatted by `snprintf(key, 64, "entry_%04d", id)` (db.c:87), as a datum. */
  function EntryKey(id: Int32): seq<Byte>
  {
    Datum("entry_" + Padded4(id))
  }

  /** Distinct non-negative ids give distinct entry keys. */
  lemma EntryKeyInjective(i: nat, j: nat)
    requires i < 0x8000_0000 && j < 0x8000_0000
    requires EntryKey(i) == EntryKey(j)
    ensures i == j
  {
    var s, t := "entry_" + Padded4(i), "entry_" + Padded4(j);
    assert Bytes(s) == Bytes(t) by {
      assert |s| == |t|;
      assert Bytes(s) == Datum(s)[..|s|];
      assert Bytes(t) == Datum(t)[..|t|];
    }
    EntryNameIsNarrow(i);
    EntryNameIsNarrow(j);
    BytesInjective(s, t);
    assert Padded4(i) == Padded4(j) by {
      assert Padded4(i) == s[6..];
      assert Padded4(j) == t[6..];
    }
    Padded4Injective(i, j);
  }

  lemma EntryNameIsNarrow(id: Int32)
    ensures IsNarrow("entry_" + Padded4(id))
  {
    var s := "entry_" + Padded4(id);
    forall k | 0 <= k < |s|
      ensures (s[k] as int) < 256
    {
      if k >= 6 {
        assert s[k] == Padded4(id)[k - 6];
      }
    }
  }

  /** No entry key collides with the counter key "entry_id". */
  lemma EntryKeyIsNotCounterKey(id: Int32)
    ensures EntryKey(id) != Datum(PK_NAME)
  {
    var s := "entry_" + Padded4(id);
    var c := Padded4(id)[0];
    assert c == '-' || IsDigit(c);
    assert EntryKey(id)[6] == ByteOf(c) by {
      assert s[6] == c;
    }
    assert Datum(PK_NAME)[6] == ByteOf('i') by {
      assert PK_NAME[6] == 'i';
    }
  }

  // ---------------------------------------------------------------------------
  // store_post_entry as a function of the store
  // ---------------------------------------------------------------------------

  /** Which of the DBM library calls fail during one store_post_entry. */
  datatype Faults = Faults(openFails: bool, entryWriteFails: bool, counterWriteFails: bool)

  const NO_FAULTS := Faults(false, false, false)

  /** The outcome of store_post_entry: its return value and the store it leaves. */
  datatype PostResult = PostResult(ret: int, store: Store)

  /**
   * store_post_entry (db.c:67-108): read the counter, write the body under
   * the entry key, then write the incremented counter. A failure at any step
   * returns -1 and leaves what the earlier steps wrote.
   */
  function PostEntry(m: Store, body: string, pkName: string, faults: Faults): (r: PostResult)
    ensures r.ret == 0 || r.ret == -1
    ensures r.ret == 0 <==> faults == NO_FAULTS
    ensures faults.openFails || faults.entryWriteFails ==> r.store == m
    ensures !faults.openFails && !faults.entryWriteFails && Datum(pkName) != EntryKey(CurrentId(m, pkName)) ==>
              EntryKey(CurrentId(m, pkName)) in r.store && r.store[EntryKey(CurrentId(m, pkName))] == Datum(body)
    ensures !faults.openFails && !faults.entryWriteFails && faults.counterWriteFails ==>
              r.store == m[EntryKey(CurrentId(m, pkName)) := Datum(body)]
    ensures r.ret == 0 ==> RetrieveInt(r.store, pkName) == Some(Increment(CurrentId(m, pkName)))
  {
    if faults.openFails then PostResult(-1, m)
    else
      var id := CurrentId(m, pkName);
      var key := EntryKey(id);
      if faults.entryWriteFails then PostResult(-1, m)
      else
        var withEntry := m[key := Datum(body)];
        if faults.counterWriteFails then PostResult(-1, withEntry)
        else
          DecodeEncode(Increment(id));
          PostResult(0, withEntry[Datum(pkName) := EncodeInt(Increment(id))])
  }

  /**
   * A successful store_post_entry with counter "entry_id" stores the body and
   * its terminator under the current entry key, advances the counter by one,
   * and changes no other key.
   */
  lemma PostEntrySuccess(m: Store, body: string)
    requires CurrentId(m, PK_NAME) < 0x7fff_ffff
    ensures var r := PostEntry(m, body, PK_NAME, NO_FAULTS);
            var key := EntryKey(CurrentId(m, PK_NAME));
            && r.ret == 0
            && r.store[key] == Datum(body)
            && CurrentId(r.store, PK_NAME) == CurrentId(m, PK_NAME) + 1
            && r.store.Keys == m.Keys + {key, Datum(PK_NAME)}
            && forall k :: k in m && k != key && k != Datum(PK_NAME) ==> r.store[k] == m[k]
  {
    EntryKeyIsNotCounterKey(CurrentId(m, PK_NAME));
  }

  /**
   * When the counter write fails after the entry was written, the entry is
   * there but the counter has not advanced: the next POST overwrites it.
   */
  lemma CounterWriteFailureRepeatsKey(m: Store, body: string, next: string)
    ensures var r := PostEntry(m, body, PK_NAME, Faults(false, false, true));
            && r.ret == -1
            && r.store[EntryKey(CurrentId(m, PK_NAME))] == Datum(body)
            && CurrentId(r.store, PK_NAME) == CurrentId(m, PK_NAME)
            && PostEntry(r.store, next, PK_NAME, NO_FAULTS).store[EntryKey(CurrentId(m, PK_NAME))] == Datum(next)
  {
    EntryKeyIsNotCounterKey(CurrentId(m, PK_NAME));
  }

  /** A counter that is not exactly four bytes long counts as 0, so the next entry is entry_0000. */
  lemma MalformedCounterRestartsAtZero(m: Store)
    requires Datum(PK_NAME) in m && |m[Datum(PK_NAME)]| != 4
    ensures CurrentId(m, PK_NAME) == 0
    ensures EntryKey(CurrentId(m, PK_NAME)) == Datum("entry_0000")
  {
    assert Padded4(0) == "0000";
  }

  /** The store after successive successful POSTs of `bodies`, oldest first. */
  function PostAll(m: Store, bodies: seq<string>): Store
  {
    if bodies == [] then m
    else PostEntry(PostAll(m, bodies[..|bodies| - 1]), bodies[|bodies| - 1], PK_NAME, NO_FAULTS).store
  }

  /** The keys entry_0000 … entry_(n-1). */
  function EntryKeys(n: nat): set<seq<Byte>>
    requires n <= 0x8000_0000
  {
    if n == 0 then {} else EntryKeys(n - 1) + {EntryKey(n - 1)}
  }

  /** The entries entry_0000 … entry_(K-1) hold `bodies`, in order. */
  ghost predicate EntriesHold(r: Store, bodies: seq<string>)
    requires |bodies| <= 0x8000_0000
  {
    forall i :: 0 <= i < |bodies| ==> EntryKey(i) in r && r[EntryKey(i)] == Datum(bodies[i])
  }

  /**
   * The store that `bodies` leave behind when each was posted successfully,
   * oldest first: entry_0000 … entry_(K-1) holding the bodies, a counter equal
   * to K, and no other key.
   */
  ghost predicate HoldsEntries(r: Store, bodies: seq<string>)
    requires |bodies| <= 0x8000_0000
  {
    && CurrentId(r, PK_NAME) == |bodies|
    && EntriesHold(r, bodies)
    && r.Keys == (if bodies == [] then {} else {Datum(PK_NAME)}) + EntryKeys(|bodies|)
  }

  /** A successful POST at counter n leaves the entry of an earlier id as it was. */
  lemma PostKeepsEntry(m: Store, body: string, i: nat, n: nat)
    requires i < n < 0x7fff_ffff
    requires CurrentId(m, PK_NAME) == n
    ensures var r := PostEntry(m, body, PK_NAME, NO_FAULTS).store;
            EntryKey(i) in m ==> EntryKey(i) in r && r[EntryKey(i)] == m[EntryKey(i)]
  {
    if EntryKey(i) == EntryKey(n) {
      EntryKeyInjective(i, n);
    }
    EntryKeyIsNotCounterKey(i);
  }

  /** A successful POST leaves the earlier entries as they were and adds the new one. */
  lemma PostKeepsEntries(m: Store, bodies: seq<string>)
    requires 0 < |bodies| < 0x7fff_ffff
    requires CurrentId(m, PK_NAME) == |bodies| - 1
    requires EntriesHold(m, bodies[..|bodies| - 1])
    ensures EntriesHold(PostEntry(m, bodies[|bodies| - 1], PK_NAME, NO_FAULTS).store, bodies)
  {
    var n := |bodies| - 1;
    var r := PostEntry(m, bodies[n], PK_NAME, NO_FAULTS).store;
    forall i | 0 <= i < n + 1
      ensures EntryKey(i) in r && r[EntryKey(i)] == Datum(bodies[i])
    {
      if i < n {
        PostKeepsEntry(m, bodies[n], i, n);
        assert bodies[..n][i] == bodies[i];
      } else {
        PostEntrySuccess(m, bodies[n]);
      }
    }
  }

  /** One more successful POST extends the sequence of entries by one. */
  lemma PostExtendsEntries(m: Store, bodies: seq<string>)
    requires 0 < |bodies| < 0x7fff_ffff
    requires HoldsEntries(m, bodies[..|bodies| - 1])
    ensures HoldsEntries(PostEntry(m, bodies[|bodies| - 1], PK_NAME, NO_FAULTS).store, bodies)
  {
    PostEntrySuccess(m, bodies[|bodies| - 1]);
    PostKeepsEntries(m, bodies);
  }

  /**
   * K successive successful POSTs on an empty store leave entries
   * entry_0000 … entry_(K-1), each holding its body byte for byte, a counter
   * equal to K, and no other key.
   */
  lemma {:induction false} SequentialEntries(bodies: seq<string>)
    requires |bodies| < 0x7fff_ffff
    ensures HoldsEntries(PostAll(map[], bodies), bodies)
  {
    if bodies != [] {
      SequentialEntries(bodies[..|bodies| - 1]);
      PostExtendsEntries(PostAll(map[], bodies[..|bodies| - 1]), bodies);
    }
  }

  // ---------------------------------------------------------------------------
  // The DBM handle and its operations
  // ---------------------------------------------------------------------------

  /** A `DBO`: the persisted DBM file and whether `dbo->db` holds an open handle. */
  class Database {
    var data: Store
    var isOpen: bool

    constructor (data: Store)
      ensures this.data == data && !isOpen
    {
      this.data := data;
      isOpen := false;
    }

    /** database_open (db.c:24-33): 0 and an open handle, or -1 and none. */
    method DatabaseOpen(fails: bool) returns (ret: int)
      modifies this
      ensures ret == (if fails then -1 else 0)
      ensures isOpen == !fails && data == old(data)
    {
      isOpen := !fails;
      ret := if fails then -1 else 0;
    }

    /** dbm_close. */
    method Close()
      modifies this
      ensures !isOpen && data == old(data)
    {
      isOpen := false;
    }

    /**
     * store_string (db.c:37-43): dbm_store with DBM_REPLACE of the key and
     * value datums, each with its terminator; a failed store changes nothing.
     */
    method StoreString(key: string, value: string, fails: bool) returns (ret: int)
      requires isOpen
      modifies this
      ensures isOpen
      ensures ret == 0 <==> !fails
      ensures data == if fails then old(data) else old(data)[Datum(key) := Datum(value)]
      ensures ret == 0 ==> RetrieveByte(data, Datum(key)) == Some(Datum(value))
    {
      if fails {
        return -1;
      }
      data := data[Datum(key) := Datum(value)];
      return 0;
    }

    /** store_int (db.c:45-65): the int's four bytes under the key, replacing any old value. */
    method StoreInt(key: string, value: Int32, fails: bool) returns (ret: int)
      requires isOpen
      modifies this
      ensures isOpen
      ensures ret == 0 <==> !fails
      ensures data == if fails then old(data) else old(data)[Datum(key) := EncodeInt(value)]
      ensures ret == 0 ==> RetrieveInt(data, key) == Some(value)
    {
      if fails {
        return -1;
      }
      data := data[Datum(key) := EncodeInt(value)];
      DecodeEncode(value);
      return 0;
    }

    /**
     * store_post_entry (db.c:67-108), step by step on the open handle; the
     * handle is closed again on every path that opened it.
     */
    method StorePostEntry(body: string, pkName: string, faults: Faults) returns (ret: int)
      modifies this
      ensures PostResult(ret, data) == PostEntry(old(data), body, pkName, faults)
      ensures !isOpen
    {
      var openResult := DatabaseOpen(faults.openFails);
      if openResult < 0 {
        return -1;
      }
      var currentId: Int32;
      match RetrieveInt(data, pkName) {
        case Some(id) => currentId := id;
        case None => currentId := 0;
      }
      var key := "entry_" + Padded4(currentId);
      var stored := StoreString(key, body, faults.entryWriteFails);
      if stored != 0 {
        Close();
        return -1;
      }
      currentId := Increment(currentId);
      stored := StoreInt(pkName, currentId, faults.counterWriteFails);
      if stored != 0 {
        Close();
        return -1;
      }
      Close();
      return 0;
    }
  }
}
