/**
 * The de-duplication at the end of `detect_fields_from_docx`: every
 * detection is stored in a dictionary under its key (placeholder text,
 * line index, kind); the dictionary's values, in the order their keys
 * were first inserted, are the result.  A Python dictionary keeps its
 * keys in insertion order and overwriting a value keeps the key's place,
 * so it is modelled by a key order `seq<Key>` beside a `map`.
 */
module Dedup {
  import opened Detect

  datatype Key = Key(raw: string, lineIndex: nat, kind: Kind)

  function KeyOf(d: DetectedField): Key
  {
    Key(d.rawPlaceholder, d.lineIndex, d.kind)
  }

  predicate HasKey(ds: seq<DetectedField>, key: Key)
  {
    exists i :: 0 <= i < |ds| && KeyOf(ds[i]) == key
  }

  /** The dictionary's keys after the first `n` insertions, in insertion order. */
  function Order(ds: seq<DetectedField>, n: nat): seq<Key>
    requires n <= |ds|
  {
    if n == 0 then []
    else
      var ks := Order(ds, n - 1);
      if KeyOf(ds[n - 1]) in ks then ks else ks + [KeyOf(ds[n - 1])]
  }

  /** The dictionary's contents after the first `n` insertions: the last value stored wins. */
  function Table(ds: seq<DetectedField>, n: nat): map<Key, DetectedField>
    requires n <= |ds|
  {
    if n == 0 then map[] else Table(ds, n - 1)[KeyOf(ds[n - 1]) := ds[n - 1]]
  }

  /** The values stored under the first `n` keys of `ks`. */
  function ValuesOf(ks: seq<Key>, m: map<Key, DetectedField>, n: nat): seq<DetectedField>
    requires n <= |ks|
    requires forall k :: k in ks ==> k in m
  {
    if n == 0 then [] else ValuesOf(ks, m, n - 1) + [m[ks[n - 1]]]
  }

  /** `list(uniq.values())` after every detection has been stored. */
  function Deduped(ds: seq<DetectedField>): seq<DetectedField>
  {
    var ks := Order(ds, |ds|);
    OrderDomain(ds, |ds|);
    ValuesOf(ks, Table(ds, |ds|), |ks|)
  }

  /** The position of the first detection with key `key`; `|ds|` when there is none. */
  function FirstAt(ds: seq<DetectedField>, key: Key): (i: nat)
    ensures i <= |ds|
  {
    if |ds| == 0 then 0
    else if KeyOf(ds[0]) == key then 0
    else 1 + FirstAt(ds[1..], key)
  }

  /** `ds[i]` has key `k` and no detection after it, among the first `n`, does. */
  predicate LastWith(ds: seq<DetectedField>, n: nat, i: int, k: Key)
    requires n <= |ds|
  {
    0 <= i < n && KeyOf(ds[i]) == k && forall i' :: i < i' < n ==> KeyOf(ds[i']) != k
  }

  predicate DistinctKeys(ds: seq<DetectedField>)
  {
    forall j, k :: 0 <= j < k < |ds| ==> KeyOf(ds[j]) != KeyOf(ds[k])
  }

  /** Detections that share a key are the same record. */
  predicate KeyCoherent(ds: seq<DetectedField>)
  {
    forall i, j :: 0 <= i < |ds| && 0 <= j < |ds| && KeyOf(ds[i]) == KeyOf(ds[j]) ==> ds[i] == ds[j]
  }

  // ---- the loop ----

  /**
   * `uniq[key] = d` for every detection in turn, then `list(uniq.values())`.
   * The key order is the dictionary's insertion order.
   */
  method DedupFields(detected: seq<DetectedField>) returns (out: seq<DetectedField>)
    ensures out == Deduped(detected)
  {
    var order: seq<Key> := [];
    var uniq: map<Key, DetectedField> := map[];
    for i := 0 to |detected|
      invariant order == Order(detected, i) && uniq == Table(detected, i)
    {
      var d := detected[i];
      var key := Key(d.rawPlaceholder, d.lineIndex, d.kind);
      OrderDomain(detected, i);
      if key !in uniq {
        order := order + [key];
      }
      uniq := uniq[key := d];
    }
    OrderDomain(detected, |detected|);
    out := [];
    for k := 0 to |order|
      invariant out == ValuesOf(order, uniq, k)
    {
      out := out + [uniq[order[k]]];
    }
  }

  // ---- properties ----

  /** The key order and the dictionary hold the same keys: those of the first `n` detections. */
  lemma {:induction false} OrderDomain(ds: seq<DetectedField>, n: nat)
    requires n <= |ds|
    ensures forall k :: k in Order(ds, n) <==> k in Table(ds, n)
    ensures forall k :: k in Table(ds, n) <==> exists i :: 0 <= i < n && KeyOf(ds[i]) == k
  {
    if n > 0 {
      OrderDomain(ds, n - 1);
    }
  }

  lemma {:induction false} OrderDistinct(ds: seq<DetectedField>, n: nat)
    requires n <= |ds|
    ensures forall j, k :: 0 <= j < k < |Order(ds, n)| ==> Order(ds, n)[j] != Order(ds, n)[k]
  {
    if n > 0 {
      OrderDistinct(ds, n - 1);
    }
  }

  lemma FirstAtSpec(ds: seq<DetectedField>, key: Key)
    ensures FirstAt(ds, key) < |ds| ==> KeyOf(ds[FirstAt(ds, key)]) == key
    ensures forall i :: 0 <= i < FirstAt(ds, key) ==> KeyOf(ds[i]) != key
  {
    if |ds| > 0 && KeyOf(ds[0]) != key {
      FirstAtSpec(ds[1..], key);
      forall i | 0 < i < FirstAt(ds, key) ensures KeyOf(ds[i]) != key {
        assert ds[i] == ds[1..][i - 1];
      }
    }
  }

  /** A key occurs in the input exactly when its first position is inside it. */
  lemma FirstAtPresent(ds: seq<DetectedField>, key: Key)
    ensures HasKey(ds, key) <==> FirstAt(ds, key) < |ds|
  {
    FirstAtSpec(ds, key);
  }

  /** The first detection with a key is the one at the first position that has it. */
  lemma FirstAtUnique(ds: seq<DetectedField>, key: Key, i: nat)
    requires i < |ds| && KeyOf(ds[i]) == key
    requires forall i' :: 0 <= i' < i ==> KeyOf(ds[i']) != key
    ensures FirstAt(ds, key) == i
  {
    FirstAtSpec(ds, key);
  }

  /** A key not yet in the dictionary occurs in none of the detections stored so far. */
  lemma NewKey(ds: seq<DetectedField>, n: nat)
    requires n < |ds| && KeyOf(ds[n]) !in Order(ds, n)
    ensures FirstAt(ds, KeyOf(ds[n])) == n
  {
    OrderDomain(ds, n);
    FirstAtUnique(ds, KeyOf(ds[n]), n);
  }

  /** Every key in the order first occurs among the detections stored so far. */
  lemma {:induction false} OrderKeys(ds: seq<DetectedField>, n: nat)
    requires n <= |ds|
    ensures forall k :: k in Order(ds, n) ==> FirstAt(ds, k) < n
  {
    if n > 0 {
      OrderKeys(ds, n - 1);
      if KeyOf(ds[n - 1]) !in Order(ds, n - 1) {
        NewKey(ds, n - 1);
      }
    }
  }

  lemma {:induction false} OrderFirstAt(ds: seq<DetectedField>, n: nat, j: nat, k: nat)
    requires n <= |ds| && j < k < |Order(ds, n)|
    ensures FirstAt(ds, Order(ds, n)[j]) < FirstAt(ds, Order(ds, n)[k])
  {
    var key, ks := KeyOf(ds[n - 1]), Order(ds, n - 1);
    if key in ks || k < |ks| {
      OrderFirstAt(ds, n - 1, j, k);
    } else {
      OrderKeys(ds, n - 1);
      NewKey(ds, n - 1);
      assert ks[j] in ks;
    }
  }

  /** Keys enter the order at their first occurrence, so the order follows first positions. */
  lemma OrderFirst(ds: seq<DetectedField>, n: nat)
    requires n <= |ds|
    ensures forall j, k :: 0 <= j < k < |Order(ds, n)| ==> FirstAt(ds, Order(ds, n)[j]) < FirstAt(ds, Order(ds, n)[k])
  {
    forall j, k | 0 <= j < k < |Order(ds, n)|
      ensures FirstAt(ds, Order(ds, n)[j]) < FirstAt(ds, Order(ds, n)[k])
    {
      OrderFirstAt(ds, n, j, k);
    }
  }

  /** Each stored value is a detection with that key, and no later detection has the key. */
  lemma {:induction false} TableLast(ds: seq<DetectedField>, n: nat)
    requires n <= |ds|
    ensures forall k :: k in Table(ds, n) ==> exists i :: LastWith(ds, n, i, k) && ds[i] == Table(ds, n)[k]
  {
    if n > 0 {
      TableLast(ds, n - 1);
      var t := Table(ds, n);
      forall k | k in t ensures exists i :: LastWith(ds, n, i, k) && ds[i] == t[k] {
        if k == KeyOf(ds[n - 1]) {
          assert LastWith(ds, n, n - 1, k);
        } else {
          var i :| LastWith(ds, n - 1, i, k) && ds[i] == Table(ds, n - 1)[k];
          assert LastWith(ds, n, i, k);
        }
      }
    }
  }

  lemma {:induction false} ValuesOfAt(ks: seq<Key>, m: map<Key, DetectedField>, n: nat)
    requires n <= |ks|
    requires forall k :: k in ks ==> k in m
    ensures |ValuesOf(ks, m, n)| == n
    ensures forall j :: 0 <= j < n ==> ValuesOf(ks, m, n)[j] == m[ks[j]]
  {
    if n > 0 {
      ValuesOfAt(ks, m, n - 1);
    }
  }

  /** The result's `j`-th record is the value stored under the `j`-th key inserted. */
  lemma DedupAt(ds: seq<DetectedField>)
    ensures |Deduped(ds)| == |Order(ds, |ds|)|
    ensures forall j :: 0 <= j < |Deduped(ds)| ==>
      Order(ds, |ds|)[j] in Table(ds, |ds|) && Deduped(ds)[j] == Table(ds, |ds|)[Order(ds, |ds|)[j]]
  {
    OrderDomain(ds, |ds|);
    ValuesOfAt(Order(ds, |ds|), Table(ds, |ds|), |Order(ds, |ds|)|);
  }

  /** The result's keys are the dictionary's keys, in insertion order. */
  lemma DedupKeys(ds: seq<DetectedField>)
    ensures |Deduped(ds)| == |Order(ds, |ds|)|
    ensures forall j :: 0 <= j < |Deduped(ds)| ==> KeyOf(Deduped(ds)[j]) == Order(ds, |ds|)[j]
  {
    var ks, t := Order(ds, |ds|), Table(ds, |ds|);
    DedupAt(ds);
    TableLast(ds, |ds|);
    forall j | 0 <= j < |Deduped(ds)| ensures KeyOf(Deduped(ds)[j]) == ks[j] {
      var i :| LastWith(ds, |ds|, i, ks[j]) && ds[i] == t[ks[j]];
    }
  }

  /** No two records of the result share a key. */
  lemma DedupDistinct(ds: seq<DetectedField>)
    ensures DistinctKeys(Deduped(ds))
  {
    DedupKeys(ds);
    OrderDistinct(ds, |ds|);
  }

  /** Every key of the input is kept, and no other appears. */
  lemma DedupKeepsKeys(ds: seq<DetectedField>)
    ensures forall k :: HasKey(Deduped(ds), k) <==> HasKey(ds, k)
  {
    var out, ks := Deduped(ds), Order(ds, |ds|);
    DedupKeys(ds);
    OrderDomain(ds, |ds|);
    forall k ensures HasKey(out, k) <==> HasKey(ds, k) {
      if HasKey(ds, k) {
        var i :| 0 <= i < |ds| && KeyOf(ds[i]) == k;
        assert k in ks;
        var j :| 0 <= j < |ks| && ks[j] == k;
        assert KeyOf(out[j]) == k;
      }
      if HasKey(out, k) {
        var j :| 0 <= j < |out| && KeyOf(out[j]) == k;
        assert ks[j] in ks;
      }
    }
  }

  /** Records come in the order their keys first occur in the input. */
  lemma DedupFirstOrder(ds: seq<DetectedField>)
    ensures forall j, k :: 0 <= j < k < |Deduped(ds)| ==> FirstAt(ds, KeyOf(Deduped(ds)[j])) < FirstAt(ds, KeyOf(Deduped(ds)[k]))
  {
    DedupKeys(ds);
    OrderFirst(ds, |ds|);
  }

  /** Each record is the last detection with its key: later ones overwrite earlier ones. */
  lemma DedupLastWins(ds: seq<DetectedField>)
    ensures forall j :: 0 <= j < |Deduped(ds)| ==>
      exists i :: LastWith(ds, |ds|, i, KeyOf(Deduped(ds)[j])) && ds[i] == Deduped(ds)[j]
  {
    var ks, t := Order(ds, |ds|), Table(ds, |ds|);
    DedupAt(ds);
    DedupKeys(ds);
    TableLast(ds, |ds|);
  }

  /** Key order `ks` and dictionary `m` hold the first `n` records of `ds`, each under its own key. */
  predicate StoredInOrder(ds: seq<DetectedField>, n: nat, ks: seq<Key>, m: map<Key, DetectedField>)
    requires n <= |ds|
  {
    |ks| == n && forall j :: 0 <= j < n ==> ks[j] == KeyOf(ds[j]) && KeyOf(ds[j]) in m && m[KeyOf(ds[j])] == ds[j]
  }

  /** With distinct keys, each record is stored under its own key, in input order. */
  lemma {:induction false} DedupDistinctNoop(ds: seq<DetectedField>, n: nat)
    requires n <= |ds| && DistinctKeys(ds)
    ensures StoredInOrder(ds, n, Order(ds, n), Table(ds, n))
  {
    if n > 0 {
      DedupDistinctNoop(ds, n - 1);
      NoopStep(ds, n, Order(ds, n - 1), Table(ds, n - 1), Order(ds, n), Table(ds, n));
    }
  }

  /** Storing a record whose key is new appends the key and keeps every earlier entry. */
  lemma NoopStep(ds: seq<DetectedField>, n: nat, ks: seq<Key>, m: map<Key, DetectedField>,
                 ks': seq<Key>, m': map<Key, DetectedField>)
    requires 0 < n <= |ds| && DistinctKeys(ds) && StoredInOrder(ds, n - 1, ks, m)
    requires ks' == (if KeyOf(ds[n - 1]) in ks then ks else ks + [KeyOf(ds[n - 1])])
    requires m' == m[KeyOf(ds[n - 1]) := ds[n - 1]]
    ensures StoredInOrder(ds, n, ks', m')
  {
    forall i | 0 <= i < n - 1 ensures ks[i] != KeyOf(ds[n - 1]) {
      assert ks[i] == KeyOf(ds[i]);
    }
    assert KeyOf(ds[n - 1]) !in ks;
  }

  /** Input whose keys are already distinct passes through unchanged. */
  lemma DedupDistinctUnchanged(ds: seq<DetectedField>)
    requires DistinctKeys(ds)
    ensures Deduped(ds) == ds
  {
    DedupDistinctNoop(ds, |ds|);
    DedupAt(ds);
  }

  /** De-duplicating twice is de-duplicating once. */
  lemma DedupIdempotent(ds: seq<DetectedField>)
    ensures Deduped(Deduped(ds)) == Deduped(ds)
  {
    DedupDistinct(ds);
    DedupDistinctUnchanged(Deduped(ds));
  }

  /**
   * When records sharing a key are equal, as the scan's are, each
   * record of the result is the first detection with its key.
   */
  lemma DedupFirstOccurrence(ds: seq<DetectedField>)
    requires KeyCoherent(ds)
    ensures forall j :: 0 <= j < |Deduped(ds)| ==>
      FirstAt(ds, KeyOf(Deduped(ds)[j])) < |ds| && Deduped(ds)[j] == ds[FirstAt(ds, KeyOf(Deduped(ds)[j]))]
  {
    DedupLastWins(ds);
    forall j | 0 <= j < |Deduped(ds)|
      ensures FirstAt(ds, KeyOf(Deduped(ds)[j])) < |ds| && Deduped(ds)[j] == ds[FirstAt(ds, KeyOf(Deduped(ds)[j]))]
    {
      var i :| LastWith(ds, |ds|, i, KeyOf(Deduped(ds)[j])) && ds[i] == Deduped(ds)[j];
      FirstAtSpec(ds, KeyOf(ds[i]));
    }
  }
}
