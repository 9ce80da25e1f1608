/**
  The vault health check of `lib/sync.ts`: every record fetched from the
  `passwords` table is decrypted under the device's master key and counted as
  a success or a failure, and the counts are reported as `{total, success, fail}`.
 */
module VaultSync {
  import opened Wrappers

  /** What the AES decrypt followed by UTF-8 decoding yields for one ciphertext:
      either it throws, or it produces a (possibly empty) text. */
  datatype DecryptOutcome = Throws | Text(text: string)

  /** The cipher library, left uninterpreted: (ciphertext, master key) to outcome. */
  type Cipher = (string, string) -> DecryptOutcome

  /** One row of the `passwords` table. */
  datatype Record = Record(id: string, userId: string, siteName: string, encryptedValue: string)

  /** The error object a failed query carries. */
  datatype QueryError = QueryError(message: string)

  /** The reply of the `select('*')` query: `data` may be null, `error` is null on success. */
  datatype QueryReply = QueryReply(data: Option<seq<Record>>, error: Option<QueryError>)

  /** The health report handed back to the caller. */
  datatype Report = Report(total: nat, success: nat, fail: nat)

  /** A decrypt outcome counts as a success when it returned normally with a
      truthy text; the empty string is falsy in JavaScript. */
  predicate Decrypts(o: DecryptOutcome) {
    o.Text? && o.text != ""
  }

  /** Whether `r` decrypts under `key`. */
  predicate Readable(decrypt: Cipher, key: string, r: Record) {
    Decrypts(decrypt(r.encryptedValue, key))
  }

  /** The records the query hands to the loop: a null `data` is read as `[]`. */
  function Fetched(reply: QueryReply): seq<Record> {
    reply.data.GetOr([])
  }

  /** The records that decrypt under `key`, in their original order. */
  function Readables(decrypt: Cipher, key: string, rs: seq<Record>): (ok: seq<Record>)
    ensures |ok| <= |rs|
  {
    if rs == [] then []
    else if Readable(decrypt, key, rs[0]) then [rs[0]] + Readables(decrypt, key, rs[1..])
    else Readables(decrypt, key, rs[1..])
  }

  /** The records that do not decrypt under `key` (a throw or an empty text), in order. */
  function Unreadables(decrypt: Cipher, key: string, rs: seq<Record>): (bad: seq<Record>)
    ensures |bad| <= |rs|
  {
    if rs == [] then []
    else if Readable(decrypt, key, rs[0]) then Unreadables(decrypt, key, rs[1..])
    else [rs[0]] + Unreadables(decrypt, key, rs[1..])
  }

  /** The success filter keeps exactly the records that decrypt. */
  lemma {:induction false} ReadablesExact(decrypt: Cipher, key: string, rs: seq<Record>)
    ensures forall r :: r in Readables(decrypt, key, rs) <==> r in rs && Readable(decrypt, key, r)
  {
    if rs != [] {
      ReadablesExact(decrypt, key, rs[1..]);
      assert rs == [rs[0]] + rs[1..];
    }
  }

  /** The failure filter keeps exactly the records that do not decrypt. */
  lemma {:induction false} UnreadablesExact(decrypt: Cipher, key: string, rs: seq<Record>)
    ensures forall r :: r in Unreadables(decrypt, key, rs) <==> r in rs && !Readable(decrypt, key, r)
  {
    if rs != [] {
      UnreadablesExact(decrypt, key, rs[1..]);
      assert rs == [rs[0]] + rs[1..];
    }
  }

  /** The report the health check should produce for `rs`: a reference definition
      independent of the counting loop. */
  function Expected(decrypt: Cipher, key: string, rs: seq<Record>): Report {
    Report(|rs|, |Readables(decrypt, key, rs)|, |Unreadables(decrypt, key, rs)|)
  }

  /** Component-wise sum of two reports. */
  function Add(a: Report, b: Report): Report {
    Report(a.total + b.total, a.success + b.success, a.fail + b.fail)
  }

  /** The success filter distributes over concatenation. */
  lemma {:induction false} ReadablesAppend(decrypt: Cipher, key: string, xs: seq<Record>, ys: seq<Record>)
    ensures Readables(decrypt, key, xs + ys) == Readables(decrypt, key, xs) + Readables(decrypt, key, ys)
  {
    if xs == [] {
      assert xs + ys == ys;
    } else {
      var zs := xs + ys;
      assert zs[0] == xs[0];
      assert zs[1..] == xs[1..] + ys;
      ReadablesAppend(decrypt, key, xs[1..], ys);
    }
  }

  /** The failure filter distributes over concatenation. */
  lemma {:induction false} UnreadablesAppend(decrypt: Cipher, key: string, xs: seq<Record>, ys: seq<Record>)
    ensures Unreadables(decrypt, key, xs + ys) == Unreadables(decrypt, key, xs) + Unreadables(decrypt, key, ys)
  {
    if xs == [] {
      assert xs + ys == ys;
    } else {
      var zs := xs + ys;
      assert zs[0] == xs[0];
      assert zs[1..] == xs[1..] + ys;
      UnreadablesAppend(decrypt, key, xs[1..], ys);
    }
  }

  /** Every record lands in exactly one of the two filters, so they partition the input. */
  lemma {:induction false} PartitionCount(decrypt: Cipher, key: string, rs: seq<Record>)
    ensures |Readables(decrypt, key, rs)| + |Unreadables(decrypt, key, rs)| == |rs|
  {
    if rs != [] {
      PartitionCount(decrypt, key, rs[1..]);
    }
  }

  /** The arithmetic invariant of the report: both counts are bounded by the
      total and add up to it. */
  lemma {:induction false} ReportBalanced(decrypt: Cipher, key: string, rs: seq<Record>)
    ensures Expected(decrypt, key, rs).total == |rs|
    ensures Expected(decrypt, key, rs).success + Expected(decrypt, key, rs).fail == Expected(decrypt, key, rs).total
    ensures 0 <= Expected(decrypt, key, rs).success <= Expected(decrypt, key, rs).total
    ensures 0 <= Expected(decrypt, key, rs).fail <= Expected(decrypt, key, rs).total
  {
    PartitionCount(decrypt, key, rs);
  }

  /** One record adds 1 to exactly one of `success` and `fail`: to `success`
      precisely when its decrypt returns a non-empty text. */
  lemma {:induction false} SingleRecord(decrypt: Cipher, key: string, r: Record)
    ensures Expected(decrypt, key, [r]) == if Decrypts(decrypt(r.encryptedValue, key)) then Report(1, 1, 0) else Report(1, 0, 1)
    ensures decrypt(r.encryptedValue, key) == Throws ==> Expected(decrypt, key, [r]) == Report(1, 0, 1)
    ensures decrypt(r.encryptedValue, key) == Text("") ==> Expected(decrypt, key, [r]) == Report(1, 0, 1)
  {
  }

  /** The success count of a concatenation is the sum of the parts' counts. */
  lemma ReadablesAppendLength(decrypt: Cipher, key: string, xs: seq<Record>, ys: seq<Record>)
    ensures |Readables(decrypt, key, xs + ys)| == |Readables(decrypt, key, xs)| + |Readables(decrypt, key, ys)|
  {
    ReadablesAppend(decrypt, key, xs, ys);
  }

  /** The failure count of a concatenation is the sum of the parts' counts. */
  lemma UnreadablesAppendLength(decrypt: Cipher, key: string, xs: seq<Record>, ys: seq<Record>)
    ensures |Unreadables(decrypt, key, xs + ys)| == |Unreadables(decrypt, key, xs)| + |Unreadables(decrypt, key, ys)|
  {
    UnreadablesAppend(decrypt, key, xs, ys);
  }

  /** The report of a concatenation is the sum of the reports of its parts. */
  lemma {:induction false} ExpectedAppend(decrypt: Cipher, key: string, xs: seq<Record>, ys: seq<Record>)
    ensures Expected(decrypt, key, xs + ys) == Add(Expected(decrypt, key, xs), Expected(decrypt, key, ys))
  {
    ReadablesAppendLength(decrypt, key, xs, ys);
    UnreadablesAppendLength(decrypt, key, xs, ys);
  }

  /** A record whose decrypt throws is counted as one failure and does not stop
      the records after it from being classified. */
  lemma {:induction false} ThrowIsolated(decrypt: Cipher, key: string, xs: seq<Record>, r: Record, ys: seq<Record>)
    requires decrypt(r.encryptedValue, key) == Throws
    ensures Expected(decrypt, key, xs + [r] + ys)
         == Add(Add(Expected(decrypt, key, xs), Report(1, 0, 1)), Expected(decrypt, key, ys))
  {
    ExpectedAppend(decrypt, key, xs + [r], ys);
    ExpectedAppend(decrypt, key, xs, [r]);
    SingleRecord(decrypt, key, r);
  }

  /** When every record decrypts, the success filter keeps them all and the failure filter none. */
  lemma {:induction false} AllReadable(decrypt: Cipher, key: string, rs: seq<Record>)
    requires forall i :: 0 <= i < |rs| ==> Readable(decrypt, key, rs[i])
    ensures Readables(decrypt, key, rs) == rs
    ensures Unreadables(decrypt, key, rs) == []
  {
    if rs != [] {
      AllReadable(decrypt, key, rs[1..]);
    }
  }

  /** When no record decrypts, the failure filter keeps them all and the success filter none. */
  lemma {:induction false} NoneReadable(decrypt: Cipher, key: string, rs: seq<Record>)
    requires forall i :: 0 <= i < |rs| ==> !Readable(decrypt, key, rs[i])
    ensures Readables(decrypt, key, rs) == []
    ensures Unreadables(decrypt, key, rs) == rs
  {
    if rs != [] {
      NoneReadable(decrypt, key, rs[1..]);
    }
  }

  /** Whether the query returned null `data` or an empty array, the report is all zeros. */
  lemma NoDataReportsZero(decrypt: Cipher, key: string)
    ensures Expected(decrypt, key, Fetched(QueryReply(None, None))) == Report(0, 0, 0)
    ensures Expected(decrypt, key, Fetched(QueryReply(Some([]), None))) == Report(0, 0, 0)
  {
  }

  /** A batch made of records that decrypt to a non-empty text followed by
      records that do not reports the first group as successes and the second
      as failures, e.g. 7 and 3 out of 10. */
  lemma {:induction false} MixedBatch(decrypt: Cipher, key: string, good: seq<Record>, bad: seq<Record>)
    requires forall i :: 0 <= i < |good| ==> Readable(decrypt, key, good[i])
    requires forall i :: 0 <= i < |bad| ==> !Readable(decrypt, key, bad[i])
    ensures Expected(decrypt, key, good + bad) == Report(|good| + |bad|, |good|, |bad|)
  {
    ExpectedAppend(decrypt, key, good, bad);
    AllReadable(decrypt, key, good);
    NoneReadable(decrypt, key, bad);
  }

  /**
    `testServerVault`: raise the query's error if there is one; otherwise walk the
    fetched records in order, counting each decrypt that returns a non-empty text
    as a success and each empty text or thrown decrypt as a failure.
   */
  method TestServerVault(reply: QueryReply, decrypt: Cipher, masterKey: string)
    returns (res: Result<Report, QueryError>)
    ensures reply.error.Some? ==> res == Failure(reply.error.value)
    ensures reply.error.None? ==> res == Success(Expected(decrypt, masterKey, Fetched(reply)))
    ensures res.Success? ==> res.value.total == |Fetched(reply)|
    ensures res.Success? ==> res.value.success + res.value.fail == res.value.total
  {
    if reply.error.Some? {
      return Failure(reply.error.value);
    }
    var rs := Fetched(reply);
    var total := |rs|;
    var success := 0;
    var fail := 0;
    var i := 0;
    while i < |rs|
      invariant 0 <= i <= |rs|
      invariant success == |Readables(decrypt, masterKey, rs[..i])|
      invariant fail == |Unreadables(decrypt, masterKey, rs[..i])|
    {
      ReadablesAppend(decrypt, masterKey, rs[..i], [rs[i]]);
      UnreadablesAppend(decrypt, masterKey, rs[..i], [rs[i]]);
      assert rs[..i + 1] == rs[..i] + [rs[i]];
      match decrypt(rs[i].encryptedValue, masterKey) {
        case Throws =>
          fail := fail + 1;
        case Text(decryptedText) =>
          if decryptedText != "" {
            success := success + 1;
          } else {
            fail := fail + 1;
          }
      }
      i := i + 1;
    }
    assert rs[..i] == rs;
    PartitionCount(decrypt, masterKey, rs);
    return Success(Report(total, success, fail));
  }
}
