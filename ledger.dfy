/** A category's transaction history: date buckets of spend entries, and their total. */
module Ledger {
  import opened Amounts

  /** A calendar date as `LocalDate.toString()` prints it (`YYYY-MM-DD`). */
  type Date = string

  /** One recorded spend. */
  datatype TransactionEntry = TransactionEntry(amount: Amount, description: string)

  /** The history of one category: the entries recorded on each date, in call order. */
  type History = map<Date, seq<TransactionEntry>>

  /** The entries recorded on `d`; none when the date has no bucket. */
  function Bucket(h: History, d: Date): (r: seq<TransactionEntry>) {
    if d in h then h[d] else []
  }

  /** The sum of the amounts of a bucket. */
  function BucketSum(s: seq<TransactionEntry>): (r: Amount) {
    if s == [] then 0 else s[0].amount + BucketSum(s[1..])
  }

  /** The sum of the amounts of every entry in every bucket. */
  ghost function HistoryTotal(h: History): (r: Amount)
    decreases |h|
  {
    if h == map[] then 0
    else
      var d :| d in h;
      assert |h - {d}| < |h| by { assert (h - {d}).Keys == h.Keys - {d}; }
      BucketSum(h[d]) + HistoryTotal(h - {d})
  }

  /** `getOrPut(date) { mutableListOf() }.add(entry)`: the entry goes at the end of the
      bucket for `d`, which is created when missing; every other bucket stays as it was. */
  function AppendEntry(h: History, d: Date, e: TransactionEntry): (r: History)
    ensures r.Keys == h.Keys + {d}
    ensures r[d] == Bucket(h, d) + [e]
    ensures forall d' :: d' in h && d' != d ==> r[d'] == h[d']
  {
    h[d := Bucket(h, d) + [e]]
  }

  lemma {:induction false} BucketSumAppend(s: seq<TransactionEntry>, e: TransactionEntry)
    ensures BucketSum(s + [e]) == BucketSum(s) + e.amount
  {
    if s != [] {
      assert (s + [e])[1..] == s[1..] + [e];
      BucketSumAppend(s[1..], e);
    }
  }

  /** The total does not depend on which bucket is counted first. */
  lemma {:induction false} HistoryTotalRemove(h: History, d: Date)
    requires d in h
    ensures HistoryTotal(h) == BucketSum(h[d]) + HistoryTotal(h - {d})
    decreases |h|
  {
    var c :| c in h && HistoryTotal(h) == BucketSum(h[c]) + HistoryTotal(h - {c});
    if c != d {
      assert (h - {c}).Keys == h.Keys - {c};
      assert (h - {d}).Keys == h.Keys - {d};
      HistoryTotalRemove(h - {c}, d);
      HistoryTotalRemove(h - {d}, c);
      assert h - {c} - {d} == h - {d} - {c};
    }
  }

  /** Appending an entry raises the total by exactly its amount. */
  lemma HistoryTotalAppend(h: History, d: Date, e: TransactionEntry)
    ensures HistoryTotal(AppendEntry(h, d, e)) == HistoryTotal(h) + e.amount
  {
    var r := AppendEntry(h, d, e);
    HistoryTotalRemove(r, d);
    BucketSumAppend(Bucket(h, d), e);
    assert r - {d} == h - {d};
    if d in h {
      HistoryTotalRemove(h, d);
    } else {
      assert h - {d} == h;
    }
  }
}
