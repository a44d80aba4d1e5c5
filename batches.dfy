/** The two shapes of loop the normalisers share, over a list of upstream
    records and a per-record step that may raise: collecting the records
    into a dictionary under a key of each (a later record with the same key
    replacing the earlier one's value in place), and mapping every record to
    one result. The first exception aborts the whole loop. */
module Batches {
  import opened Values

  // ---------------------------------------------------------------------------
  // Collecting into a dictionary.

  /** Run the steps in order: a step may skip its record (None) or give a
      key and a value to store. */
  function Collect<X, K(==), V>(xs: seq<X>, step: X -> Result<Option<(K, V)>>): Result<Dict<K, V>>
    decreases |xs|
  {
    if xs == [] then Ok(EmptyDict())
    else match Collect(xs[..|xs| - 1], step)
      case Raised(x) => Raised(x)
      case Ok(d) =>
        match step(xs[|xs| - 1])
        case Raised(x) => Raised(x)
        case Ok(None) => Ok(d)
        case Ok(Some((k, v))) => Ok(d.Put(k, v))
  }

  /** Running one more step after a successful prefix. */
  lemma CollectNext<X, K, V>(xs: seq<X>, i: nat, step: X -> Result<Option<(K, V)>>)
    requires i < |xs| && Collect(xs[..i], step).Ok?
    ensures var d := Collect(xs[..i], step).value;
      Collect(xs[..i + 1], step) == match step(xs[i])
        case Raised(x) => Raised(x)
        case Ok(None) => Ok(d)
        case Ok(Some((k, v))) => Ok(d.Put(k, v))
  {
    assert xs[..i + 1][..i] == xs[..i];
  }

  /** A successful run is its last step applied to a prefix that succeeds. */
  lemma CollectSnoc<X, K, V>(xs: seq<X>, step: X -> Result<Option<(K, V)>>)
    requires xs != [] && Collect(xs, step).Ok?
    ensures Collect(xs[..|xs| - 1], step).Ok? && step(xs[|xs| - 1]).Ok?
    ensures var d := Collect(xs[..|xs| - 1], step).value;
      Collect(xs, step).value == if step(xs[|xs| - 1]).value.None? then d else d.Put(step(xs[|xs| - 1]).value.value.0, step(xs[|xs| - 1]).value.value.1)
  {
  }

  /** The result is a well-formed dictionary: no key listed twice, and the
      listed keys are exactly the entries. */
  lemma {:induction false} CollectValid<X, K, V>(xs: seq<X>, step: X -> Result<Option<(K, V)>>)
    requires Collect(xs, step).Ok?
    ensures Collect(xs, step).value.Valid()
    decreases |xs|
  {
    if xs != [] {
      CollectSnoc(xs, step);
      CollectValid(xs[..|xs| - 1], step);
    }
  }

  /** An exception in a prefix aborts the whole run with that exception. */
  lemma {:induction false} CollectRaisedPrefix<X, K, V>(xs: seq<X>, i: nat, step: X -> Result<Option<(K, V)>>)
    requires i <= |xs| && Collect(xs[..i], step).Raised?
    ensures Collect(xs, step) == Collect(xs[..i], step)
    decreases |xs|
  {
    if i < |xs| {
      var p := xs[..|xs| - 1];
      assert p[..i] == xs[..i];
      CollectRaisedPrefix(p, i, step);
    } else {
      assert xs[..i] == xs;
    }
  }

  /** A successful run succeeds on every prefix. */
  lemma {:induction false} CollectPrefixOk<X, K, V>(xs: seq<X>, m: nat, step: X -> Result<Option<(K, V)>>)
    requires m <= |xs| && Collect(xs, step).Ok?
    ensures Collect(xs[..m], step).Ok?
    decreases |xs|
  {
    if m < |xs| {
      var p := xs[..|xs| - 1];
      CollectSnoc(xs, step);
      assert p[..m] == xs[..m];
      CollectPrefixOk(p, m, step);
    } else {
      assert xs[..m] == xs;
    }
  }

  /** In a successful run every step succeeded. */
  lemma {:induction false} CollectStepsOk<X, K, V>(xs: seq<X>, step: X -> Result<Option<(K, V)>>)
    requires Collect(xs, step).Ok?
    ensures forall i :: 0 <= i < |xs| ==> step(xs[i]).Ok?
    decreases |xs|
  {
    if xs != [] {
      var p := xs[..|xs| - 1];
      CollectSnoc(xs, step);
      CollectStepsOk(p, step);
      assert forall i :: 0 <= i < |p| ==> p[i] == xs[i];
    }
  }

  /** Step `i` stores a value under `k`. */
  predicate KeyAt<X, K(==), V>(xs: seq<X>, step: X -> Result<Option<(K, V)>>, i: int, k: K) {
    0 <= i < |xs| && step(xs[i]).Ok? && step(xs[i]).value.Some? && step(xs[i]).value.value.0 == k
  }

  /** The keys are exactly those some step stored a value under. */
  lemma {:induction false} CollectKeys<X, K, V>(xs: seq<X>, step: X -> Result<Option<(K, V)>>)
    requires Collect(xs, step).Ok?
    ensures forall k :: k in Collect(xs, step).value.entries <==> exists i :: KeyAt(xs, step, i, k)
    decreases |xs|
  {
    if xs != [] {
      var n := |xs| - 1;
      var p := xs[..n];
      CollectSnoc(xs, step);
      CollectKeys(p, step);
      var d0 := Collect(p, step).value;
      var d := Collect(xs, step).value;
      var last := step(xs[n]).value;
      assert forall k :: k in d.entries <==> k in d0.entries || (last.Some? && last.value.0 == k);
      assert forall i, k :: 0 <= i < n ==> (KeyAt(p, step, i, k) <==> KeyAt(xs, step, i, k)) by {
        assert forall i :: 0 <= i < n ==> p[i] == xs[i];
      }
      forall k | k in d.entries ensures exists i :: KeyAt(xs, step, i, k) {
        if k in d0.entries {
          var i :| KeyAt(p, step, i, k);
          assert KeyAt(xs, step, i, k);
        } else {
          assert KeyAt(xs, step, n, k);
        }
      }
      forall k | exists i :: KeyAt(xs, step, i, k) ensures k in d.entries {
        var i :| KeyAt(xs, step, i, k);
        if i < n {
          assert KeyAt(p, step, i, k);
        } else {
          assert i == n;
        }
      }
    }
  }

  /** Every stored value was given by some step under its key. */
  lemma {:induction false} CollectFrom<X, K, V>(xs: seq<X>, step: X -> Result<Option<(K, V)>>)
    requires Collect(xs, step).Ok?
    ensures var d := Collect(xs, step).value;
      forall k :: k in d.entries ==> exists i :: 0 <= i < |xs| && step(xs[i]) == Ok(Some((k, d.entries[k])))
    decreases |xs|
  {
    if xs != [] {
      var n := |xs| - 1;
      var p := xs[..n];
      CollectSnoc(xs, step);
      CollectFrom(p, step);
      var d0 := Collect(p, step).value;
      var d := Collect(xs, step).value;
      forall k | k in d.entries ensures exists i :: 0 <= i < |xs| && step(xs[i]) == Ok(Some((k, d.entries[k]))) {
        if step(xs[n]) == Ok(Some((k, d.entries[k]))) {
        } else {
          assert k in d0.entries && d.entries[k] == d0.entries[k];
          var i :| 0 <= i < |p| && step(p[i]) == Ok(Some((k, d0.entries[k])));
          assert p[i] == xs[i];
        }
      }
    }
  }

  /** Steps after `m` that store under other keys leave the value under `k`
      as the first `m` steps made it. */
  lemma {:induction false} CollectUntouched<X, K, V>(xs: seq<X>, m: nat, k: K, step: X -> Result<Option<(K, V)>>)
    requires m <= |xs| && Collect(xs, step).Ok? && Collect(xs[..m], step).Ok?
    requires k in Collect(xs[..m], step).value.entries
    requires forall i :: m <= i < |xs| ==> !KeyAt(xs, step, i, k)
    ensures k in Collect(xs, step).value.entries
    ensures Collect(xs, step).value.entries[k] == Collect(xs[..m], step).value.entries[k]
    decreases |xs|
  {
    if m == |xs| {
      assert xs[..m] == xs;
    } else {
      var n := |xs| - 1;
      var p := xs[..n];
      CollectSnoc(xs, step);
      assert p[..m] == xs[..m];
      forall i | m <= i < |p| ensures !KeyAt(p, step, i, k) {
        assert p[i] == xs[i] && !KeyAt(xs, step, i, k);
      }
      CollectUntouched(p, m, k, step);
      assert !KeyAt(xs, step, n, k);
    }
  }

  /** When several steps store under the same key, the last one's value is
      the one kept. */
  lemma CollectLastWins<X, K, V>(xs: seq<X>, j: nat, k: K, step: X -> Result<Option<(K, V)>>)
    requires Collect(xs, step).Ok? && KeyAt(xs, step, j, k)
    requires forall i :: j < i < |xs| ==> !KeyAt(xs, step, i, k)
    ensures k in Collect(xs, step).value.entries
    ensures Collect(xs, step).value.entries[k] == step(xs[j]).value.value.1
  {
    var m := j + 1;
    CollectPrefixOk(xs, m, step);
    var q := xs[..m];
    assert q[..j] == xs[..j] && q[j] == xs[j];
    CollectSnoc(q, step);
    CollectUntouched(xs, m, k, step);
  }

  // ---------------------------------------------------------------------------
  // Mapping every record.

  /** Run the steps in order, keeping every result. */
  function MapAll<X, T>(xs: seq<X>, step: X -> Result<T>): Result<seq<T>>
    decreases |xs|
  {
    if xs == [] then Ok([])
    else match MapAll(xs[..|xs| - 1], step)
      case Raised(x) => Raised(x)
      case Ok(ts) =>
        match step(xs[|xs| - 1])
        case Raised(x) => Raised(x)
        case Ok(t) => Ok(ts + [t])
  }

  /** Running one more step after a successful prefix. */
  lemma MapAllNext<X, T>(xs: seq<X>, i: nat, step: X -> Result<T>)
    requires i < |xs| && MapAll(xs[..i], step).Ok?
    ensures MapAll(xs[..i + 1], step) == match step(xs[i])
      case Raised(x) => Raised(x)
      case Ok(t) => Ok(MapAll(xs[..i], step).value + [t])
  {
    assert xs[..i + 1][..i] == xs[..i];
  }

  /** A successful run holds one result per record, in order; a failed one
      fails with the exception of some record. */
  lemma {:induction false} MapAllEach<X, T>(xs: seq<X>, step: X -> Result<T>)
    ensures MapAll(xs, step).Ok? ==>
      |MapAll(xs, step).value| == |xs| && forall i :: 0 <= i < |xs| ==> step(xs[i]) == Ok(MapAll(xs, step).value[i])
    ensures MapAll(xs, step).Raised? ==> exists i :: 0 <= i < |xs| && step(xs[i]) == Raised(MapAll(xs, step).cause)
    decreases |xs|
  {
    if xs != [] {
      var n := |xs| - 1;
      var p := xs[..n];
      MapAllEach(p, step);
      assert forall i :: 0 <= i < n ==> p[i] == xs[i];
      match MapAll(p, step)
      case Raised(x) =>
        var i :| 0 <= i < |p| && step(p[i]) == Raised(x);
        assert step(xs[i]) == Raised(x);
      case Ok(ts) =>
        match step(xs[n])
        case Raised(x) =>
        case Ok(t) =>
          var all := ts + [t];
          forall i | 0 <= i < |xs| ensures step(xs[i]) == Ok(all[i]) {
            if i < n {
              assert step(p[i]) == Ok(ts[i]);
            }
          }
    }
  }

  /** An exception in a prefix aborts the whole run with that exception. */
  lemma {:induction false} MapAllRaisedPrefix<X, T>(xs: seq<X>, i: nat, step: X -> Result<T>)
    requires i <= |xs| && MapAll(xs[..i], step).Raised?
    ensures MapAll(xs, step) == MapAll(xs[..i], step)
    decreases |xs|
  {
    if i < |xs| {
      var p := xs[..|xs| - 1];
      assert p[..i] == xs[..i];
      MapAllRaisedPrefix(p, i, step);
    } else {
      assert xs[..i] == xs;
    }
  }
}
