/** A keyed SQLite table as the sequence of its rows in rowid order, and the two
    conflict policies the store uses on it: INSERT OR REPLACE (the old row with
    the same key is deleted and the new row appended) and INSERT OR IGNORE (a
    row whose key is present is dropped). A key is NULL or text; `key` reads it
    off a row. */
module Tables {
  import opened Values

  /** Row `x` has a key and that key is in `ks`. */
  predicate KeyIn<R(!new)>(key: R -> Option<string>, x: R, ks: set<string>) {
    key(x).Some? && key(x).value in ks
  }

  /** The rows whose key is not in `ks`, in order. */
  function Drop<R(!new)>(t: seq<R>, key: R -> Option<string>, ks: set<string>): (r: seq<R>)
    ensures |r| <= |t|
    ensures forall x :: x in r <==> x in t && !KeyIn(key, x, ks)
  {
    if t == [] then []
    else (if KeyIn(key, t[0], ks) then [] else [t[0]]) + Drop(t[1..], key, ks)
  }

  lemma {:induction false} DropAppend<R(!new)>(a: seq<R>, b: seq<R>, key: R -> Option<string>, ks: set<string>)
    ensures Drop(a + b, key, ks) == Drop(a, key, ks) + Drop(b, key, ks)
  {
    if a != [] {
      assert (a + b)[1..] == a[1..] + b;
      DropAppend(a[1..], b, key, ks);
    } else {
      assert a + b == b;
    }
  }

  lemma {:induction false} DropDrop<R(!new)>(t: seq<R>, key: R -> Option<string>, ks: set<string>, ls: set<string>)
    ensures Drop(Drop(t, key, ks), key, ls) == Drop(t, key, ks + ls)
  {
    if t != [] {
      DropDrop(t[1..], key, ks, ls);
      var head := if KeyIn(key, t[0], ks) then [] else [t[0]];
      DropAppend(head, Drop(t[1..], key, ks), key, ls);
      if !KeyIn(key, t[0], ks) {
        assert Drop(head, key, ls) == if KeyIn(key, t[0], ls) then [] else [t[0]] by {
          assert head[1..] == [];
        }
      }
    }
  }

  lemma {:induction false} DropNothing<R(!new)>(t: seq<R>, key: R -> Option<string>, ks: set<string>)
    requires forall x :: x in t ==> !KeyIn(key, x, ks)
    ensures Drop(t, key, ks) == t
  {
    if t != [] {
      DropNothing(t[1..], key, ks);
      assert t == [t[0]] + t[1..];
    }
  }

  /** No two rows share a key, and no row has a NULL key. */
  ghost predicate KeysUnique<R(!new)>(t: seq<R>, key: R -> Option<string>) {
    && (forall i :: 0 <= i < |t| ==> key(t[i]).Some?)
    && (forall i, j :: 0 <= i < j < |t| ==> key(t[i]) != key(t[j]))
  }

  /** Some row of `t` has key `k`. */
  predicate HasKey<R(!new)>(t: seq<R>, key: R -> Option<string>, k: string) {
    exists i :: 0 <= i < |t| && key(t[i]) == Some(k)
  }

  /** INSERT OR REPLACE into a key column declared NOT NULL: the old row with
      the key is deleted and the new one appended; a NULL key is refused. */
  function Upsert<R(!new)>(t: seq<R>, r: R, key: R -> Option<string>): (u: seq<R>)
    ensures key(r) == None ==> u == t
    ensures key(r).Some? ==> u == Drop(t, key, {key(r).value}) + [r]
  {
    if key(r) == None then t else Drop(t, key, {key(r).value}) + [r]
  }

  /** After an upsert the key holds exactly the new row (no field of an old
      row survives) and every row with another key is untouched. */
  lemma UpsertReplaces<R(!new)>(t: seq<R>, r: R, key: R -> Option<string>)
    requires KeysUnique(t, key) && key(r).Some?
    ensures KeysUnique(Upsert(t, r, key), key)
    ensures r in Upsert(t, r, key)
    ensures forall x :: x in Upsert(t, r, key) && key(x) == key(r) ==> x == r
    ensures forall x :: key(x) != key(r) ==> (x in Upsert(t, r, key) <==> x in t)
  {
    var d := Drop(t, key, {key(r).value});
    DropUnique(t, key, {key(r).value});
    var u := d + [r];
    forall i, j | 0 <= i < j < |u| ensures key(u[i]) != key(u[j]) {
      if j == |d| {
        assert u[i] in d;
      } else {
        assert u[i] == d[i] && u[j] == d[j];
      }
    }
  }

  /** Dropping rows keeps the keys unique. */
  lemma {:induction false} DropUnique<R(!new)>(t: seq<R>, key: R -> Option<string>, ks: set<string>)
    requires KeysUnique(t, key)
    ensures KeysUnique(Drop(t, key, ks), key)
  {
    if t != [] {
      assert KeysUnique(t[1..], key) by {
        forall i, j | 0 <= i < j < |t[1..]| ensures key(t[1..][i]) != key(t[1..][j]) {
          assert t[1..][i] == t[i + 1] && t[1..][j] == t[j + 1];
        }
      }
      DropUnique(t[1..], key, ks);
      var rest := Drop(t[1..], key, ks);
      if !KeyIn(key, t[0], ks) {
        var u := [t[0]] + rest;
        forall i, j | 0 <= i < j < |u| ensures key(u[i]) != key(u[j]) {
          if i == 0 {
            assert u[j] in t[1..];
            var m :| 0 <= m < |t[1..]| && t[1..][m] == u[j];
            assert t[m + 1] == u[j];
          } else {
            assert u[i] == rest[i - 1] && u[j] == rest[j - 1];
          }
        }
        forall i | 0 <= i < |u| ensures key(u[i]).Some? {
          if i > 0 {
            assert u[i] in t[1..];
            var m :| 0 <= m < |t[1..]| && t[1..][m] == u[i];
            assert t[m + 1] == u[i];
          }
        }
      }
    }
  }

  /** INSERT OR IGNORE into a key column declared NOT NULL: a row whose key is
      already present, or NULL, is dropped silently. */
  function InsertIfAbsent<R(!new)>(t: seq<R>, r: R, key: R -> Option<string>): (u: seq<R>)
    ensures key(r).Some? && !HasKey(t, key, key(r).value) ==> u == t + [r]
    ensures key(r) == None || HasKey(t, key, key(r).value) ==> u == t
  {
    if key(r) == None || HasKey(t, key, key(r).value) then t else t + [r]
  }

  /** First write wins: once a key is present, inserting under it again
      leaves the table, and so the stored row, as it was. */
  lemma FirstWriteWins<R(!new)>(t: seq<R>, r: R, r': R, key: R -> Option<string>)
    requires key(r).Some? && key(r') == key(r)
    ensures InsertIfAbsent(InsertIfAbsent(t, r, key), r', key) == InsertIfAbsent(t, r, key)
  {
    var u := InsertIfAbsent(t, r, key);
    if !HasKey(t, key, key(r).value) {
      assert u[|t|] == r;
    }
    assert HasKey(u, key, key(r).value);
  }

  /** An insert-if-absent keeps the keys unique and adds at most one row. */
  lemma InsertIfAbsentUnique<R(!new)>(t: seq<R>, r: R, key: R -> Option<string>)
    requires KeysUnique(t, key)
    ensures KeysUnique(InsertIfAbsent(t, r, key), key)
    ensures |t| <= |InsertIfAbsent(t, r, key)| <= |t| + 1
  {
  }

  // ---------------------------------------------------------------------------
  // A batch of writes, one row after another.

  /** The keys of the rows in `rs`. */
  function KeysOf<R(!new)>(rs: seq<R>, key: R -> Option<string>): set<string> {
    set i | 0 <= i < |rs| && key(rs[i]).Some? :: key(rs[i]).value
  }

  function UpsertAll<R(!new)>(t: seq<R>, rs: seq<R>, key: R -> Option<string>): seq<R>
    decreases |rs|
  {
    if rs == [] then t else UpsertAll(Upsert(t, rs[0], key), rs[1..], key)
  }

  lemma {:induction false} UpsertAllSnoc<R(!new)>(t: seq<R>, rs: seq<R>, r: R, key: R -> Option<string>)
    ensures UpsertAll(t, rs + [r], key) == Upsert(UpsertAll(t, rs, key), r, key)
    decreases |rs|
  {
    if rs == [] {
      assert UpsertAll(Upsert(t, r, key), [], key) == Upsert(t, r, key);
      assert ([] + [r])[1..] == [];
    } else {
      assert (rs + [r])[1..] == rs[1..] + [r];
      UpsertAllSnoc(Upsert(t, rs[0], key), rs[1..], r, key);
    }
  }

  /** The key of one row, as a set. */
  function KeyOf<R(!new)>(r: R, key: R -> Option<string>): set<string> {
    if key(r).Some? then {key(r).value} else {}
  }

  lemma KeysOfCons<R(!new)>(rs: seq<R>, key: R -> Option<string>)
    requires rs != []
    ensures KeysOf(rs, key) == KeyOf(rs[0], key) + KeysOf(rs[1..], key)
  {
    assert forall i :: 0 < i < |rs| ==> rs[i] == rs[1..][i - 1];
    assert forall i :: 0 <= i < |rs[1..]| ==> rs[1..][i] == rs[i + 1];
  }

  /** A batch of replaces run over `a + b` treats the older rows `a` only by
      deleting those whose key the batch writes. */
  lemma {:induction false} UpsertAllPrefix<R(!new)>(a: seq<R>, b: seq<R>, rs: seq<R>, key: R -> Option<string>)
    ensures UpsertAll(a + b, rs, key) == Drop(a, key, KeysOf(rs, key)) + UpsertAll(b, rs, key)
    decreases |rs|
  {
    if rs == [] {
      assert KeysOf(rs, key) == {};
      DropNothing(a, key, {});
    } else {
      var r := rs[0];
      var ks := KeysOf(rs[1..], key);
      KeysOfCons(rs, key);
      if key(r).Some? {
        var k := {key(r).value};
        DropAppend(a, b, key, k);
        assert Upsert(a + b, r, key) == Drop(a, key, k) + Upsert(b, r, key);
        UpsertAllPrefix(Drop(a, key, k), Upsert(b, r, key), rs[1..], key);
        DropDrop(a, key, k, ks);
      } else {
        assert KeyOf(r, key) == {};
        assert Upsert(a + b, r, key) == a + b && Upsert(b, r, key) == b;
        assert KeysOf(rs, key) == ks;
        assert UpsertAll(a + b, rs, key) == UpsertAll(a + b, rs[1..], key);
        assert UpsertAll(b, rs, key) == UpsertAll(b, rs[1..], key);
        UpsertAllPrefix(a, b, rs[1..], key);
      }
    }
  }

  /** A batch of replaces leaves the rows whose keys the batch does not touch,
      followed by what the batch alone produces. */
  lemma UpsertAllShape<R(!new)>(t: seq<R>, rs: seq<R>, key: R -> Option<string>)
    ensures UpsertAll(t, rs, key) == Drop(t, key, KeysOf(rs, key)) + UpsertAll([], rs, key)
  {
    UpsertAllPrefix(t, [], rs, key);
    assert t + [] == t;
  }

  /** Every row a batch of replaces keeps carries a key of `ks` when the old
      rows and the batch do. */
  lemma {:induction false} UpsertAllKeysWide<R(!new)>(t: seq<R>, rs: seq<R>, key: R -> Option<string>, ks: set<string>)
    requires KeysOf(rs, key) <= ks
    requires forall x :: x in t ==> KeyIn(key, x, ks)
    ensures forall x :: x in UpsertAll(t, rs, key) ==> KeyIn(key, x, ks)
    decreases |rs|
  {
    if rs != [] {
      KeysOfCons(rs, key);
      var u := Upsert(t, rs[0], key);
      assert forall x :: x in u ==> x == rs[0] || x in t;
      UpsertAllKeysWide(u, rs[1..], key, ks);
    }
  }

  /** Dropping every key the rows carry leaves nothing. */
  lemma {:induction false} DropEverything<R(!new)>(t: seq<R>, key: R -> Option<string>, ks: set<string>)
    requires forall x :: x in t ==> KeyIn(key, x, ks)
    ensures Drop(t, key, ks) == []
  {
    if t != [] {
      DropEverything(t[1..], key, ks);
    }
  }

  /** Replaying a batch of replaces changes nothing: the sync's issue and
      response writes are idempotent. */
  lemma UpsertAllIdempotent<R(!new)>(t: seq<R>, rs: seq<R>, key: R -> Option<string>)
    ensures UpsertAll(UpsertAll(t, rs, key), rs, key) == UpsertAll(t, rs, key)
  {
    var ks := KeysOf(rs, key);
    var x := UpsertAll([], rs, key);
    var once := UpsertAll(t, rs, key);
    UpsertAllShape(t, rs, key);
    UpsertAllShape(once, rs, key);
    assert once == Drop(t, key, ks) + x;
    DropAppend(Drop(t, key, ks), x, key, ks);
    DropDrop(t, key, ks, ks);
    assert ks + ks == ks;
    UpsertAllKeysWide([], rs, key, ks);
    DropEverything(x, key, ks);
    assert Drop(once, key, ks) == Drop(t, key, ks);
  }

  function InsertAll<R(!new)>(t: seq<R>, rs: seq<R>, key: R -> Option<string>): seq<R>
    decreases |rs|
  {
    if rs == [] then t else InsertAll(InsertIfAbsent(t, rs[0], key), rs[1..], key)
  }

  lemma {:induction false} InsertAllSnoc<R(!new)>(t: seq<R>, rs: seq<R>, r: R, key: R -> Option<string>)
    ensures InsertAll(t, rs + [r], key) == InsertIfAbsent(InsertAll(t, rs, key), r, key)
    decreases |rs|
  {
    if rs == [] {
      assert ([] + [r])[1..] == [];
    } else {
      assert (rs + [r])[1..] == rs[1..] + [r];
      InsertAllSnoc(InsertIfAbsent(t, rs[0], key), rs[1..], r, key);
    }
  }

  /** Inserting keeps every row already there, in place. */
  lemma {:induction false} InsertAllExtends<R(!new)>(t: seq<R>, rs: seq<R>, key: R -> Option<string>)
    ensures t <= InsertAll(t, rs, key)
    ensures forall k :: k in KeysOf(rs, key) ==> HasKey(InsertAll(t, rs, key), key, k)
    decreases |rs|
  {
    if rs != [] {
      var u := InsertIfAbsent(t, rs[0], key);
      InsertAllExtends(u, rs[1..], key);
      var w := InsertAll(u, rs[1..], key);
      forall k | k in KeysOf(rs, key) ensures HasKey(w, key, k) {
        var i :| 0 <= i < |rs| && key(rs[i]) == Some(k);
        if i == 0 {
          var j :| 0 <= j < |u| && key(u[j]) == Some(k) by {
            if !HasKey(t, key, k) { assert u[|t|] == rs[0]; }
          }
          assert w[j] == u[j];
        } else {
          assert rs[1..][i - 1] == rs[i];
          assert k in KeysOf(rs[1..], key);
        }
      }
    }
  }

  /** Inserting rows whose keys are all present changes nothing. */
  lemma {:induction false} InsertAllPresent<R(!new)>(t: seq<R>, rs: seq<R>, key: R -> Option<string>)
    requires forall k :: k in KeysOf(rs, key) ==> HasKey(t, key, k)
    ensures InsertAll(t, rs, key) == t
    decreases |rs|
  {
    if rs != [] {
      KeysOfCons(rs, key);
      assert InsertIfAbsent(t, rs[0], key) == t;
      KeysOfCons(rs, key);
      InsertAllPresent(t, rs[1..], key);
    }
  }

  /** Replaying a batch of inserts changes nothing: the sync's image writes
      are idempotent. */
  lemma InsertAllIdempotent<R(!new)>(t: seq<R>, rs: seq<R>, key: R -> Option<string>)
    ensures InsertAll(InsertAll(t, rs, key), rs, key) == InsertAll(t, rs, key)
  {
    InsertAllExtends(t, rs, key);
    InsertAllPresent(InsertAll(t, rs, key), rs, key);
  }

  // ---------------------------------------------------------------------------
  // The same statements as the schema declares them: the key columns are
  // TEXT PRIMARY KEY without NOT NULL, so SQLite admits NULL keys and treats
  // every NULL as distinct from every other.

  /** INSERT OR REPLACE as the schema declares the key: a NULL key never
      conflicts, so the row is appended. */
  function UpsertAsDeclared<R(!new)>(t: seq<R>, r: R, key: R -> Option<string>): (u: seq<R>)
    ensures key(r) == None ==> u == t + [r]
    ensures key(r).Some? ==> u == Upsert(t, r, key)
  {
    if key(r) == None then t + [r] else Upsert(t, r, key)
  }

  /** INSERT OR IGNORE as the schema declares the key: a NULL key never
      conflicts, so the row is appended. */
  function InsertIfAbsentAsDeclared<R(!new)>(t: seq<R>, r: R, key: R -> Option<string>): (u: seq<R>)
    ensures key(r) == None ==> u == t + [r]
    ensures key(r).Some? ==> u == InsertIfAbsent(t, r, key)
  {
    if key(r) == None then t + [r] else InsertIfAbsent(t, r, key)
  }

  /** The primary key as SQLite enforces it on a column declared without NOT
      NULL: no two rows share a non-NULL key, while NULL keys may repeat. */
  ghost predicate KeysDistinct<R(!new)>(t: seq<R>, key: R -> Option<string>) {
    forall i, j :: 0 <= i < j < |t| && key(t[i]).Some? ==> key(t[i]) != key(t[j])
  }

  /** Dropping rows keeps the non-NULL keys distinct. */
  lemma {:induction false} DropDistinct<R(!new)>(t: seq<R>, key: R -> Option<string>, ks: set<string>)
    requires KeysDistinct(t, key)
    ensures KeysDistinct(Drop(t, key, ks), key)
  {
    if t != [] {
      assert KeysDistinct(t[1..], key) by {
        forall i, j | 0 <= i < j < |t[1..]| && key(t[1..][i]).Some? ensures key(t[1..][i]) != key(t[1..][j]) {
          assert t[1..][i] == t[i + 1] && t[1..][j] == t[j + 1];
        }
      }
      DropDistinct(t[1..], key, ks);
      var rest := Drop(t[1..], key, ks);
      if !KeyIn(key, t[0], ks) {
        var u := [t[0]] + rest;
        forall i, j | 0 <= i < j < |u| && key(u[i]).Some? ensures key(u[i]) != key(u[j]) {
          if i == 0 {
            assert u[j] in t[1..];
            var m :| 0 <= m < |t[1..]| && t[1..][m] == u[j];
            assert t[m + 1] == u[j];
          } else {
            assert u[i] == rest[i - 1] && u[j] == rest[j - 1];
          }
        }
      }
    }
  }

  /** The schema's INSERT OR REPLACE keeps the primary key: a keyed row
      replaces the row holding its key, a NULL-keyed row is added beside the
      others, and every row with another key is untouched. */
  lemma UpsertAsDeclaredReplaces<R(!new)>(t: seq<R>, r: R, key: R -> Option<string>)
    requires KeysDistinct(t, key)
    ensures KeysDistinct(UpsertAsDeclared(t, r, key), key)
    ensures r in UpsertAsDeclared(t, r, key)
    ensures key(r).Some? ==> forall x :: x in UpsertAsDeclared(t, r, key) && key(x) == key(r) ==> x == r
    ensures forall x :: key(x) != key(r) ==> (x in UpsertAsDeclared(t, r, key) <==> x in t)
  {
    var u := UpsertAsDeclared(t, r, key);
    if key(r) == None {
      forall i, j | 0 <= i < j < |u| && key(u[i]).Some? ensures key(u[i]) != key(u[j]) {
        if j < |t| {
          assert u[i] == t[i] && u[j] == t[j];
        }
      }
    } else {
      var d := Drop(t, key, {key(r).value});
      DropDistinct(t, key, {key(r).value});
      forall i, j | 0 <= i < j < |u| && key(u[i]).Some? ensures key(u[i]) != key(u[j]) {
        if j == |d| {
          assert u[i] in d;
        } else {
          assert u[i] == d[i] && u[j] == d[j];
        }
      }
    }
  }

  /** The schema's INSERT OR IGNORE keeps the primary key and every row
      already there, in place, adding at most the new row. */
  lemma InsertAsDeclaredKeeps<R(!new)>(t: seq<R>, r: R, key: R -> Option<string>)
    requires KeysDistinct(t, key)
    ensures KeysDistinct(InsertIfAbsentAsDeclared(t, r, key), key)
    ensures t <= InsertIfAbsentAsDeclared(t, r, key)
    ensures |InsertIfAbsentAsDeclared(t, r, key)| <= |t| + 1
  {
    var u := InsertIfAbsentAsDeclared(t, r, key);
    forall i, j | 0 <= i < j < |u| && key(u[i]).Some? ensures key(u[i]) != key(u[j]) {
      if j < |t| {
        assert u[i] == t[i] && u[j] == t[j];
      } else {
        assert u[i] == t[i] && u[j] == r;
      }
    }
  }

  /** A batch of the schema's INSERT OR REPLACE, one row after another. */
  function UpsertAllAsDeclared<R(!new)>(t: seq<R>, rs: seq<R>, key: R -> Option<string>): seq<R>
    decreases |rs|
  {
    if rs == [] then t else UpsertAllAsDeclared(UpsertAsDeclared(t, rs[0], key), rs[1..], key)
  }

  lemma {:induction false} UpsertAllAsDeclaredSnoc<R(!new)>(t: seq<R>, rs: seq<R>, r: R, key: R -> Option<string>)
    ensures UpsertAllAsDeclared(t, rs + [r], key) == UpsertAsDeclared(UpsertAllAsDeclared(t, rs, key), r, key)
    decreases |rs|
  {
    if rs == [] {
      assert UpsertAllAsDeclared(UpsertAsDeclared(t, r, key), [], key) == UpsertAsDeclared(t, r, key);
      assert ([] + [r])[1..] == [];
    } else {
      assert (rs + [r])[1..] == rs[1..] + [r];
      UpsertAllAsDeclaredSnoc(UpsertAsDeclared(t, rs[0], key), rs[1..], r, key);
    }
  }

  /** A batch of the schema's INSERT OR IGNORE, one row after another. */
  function InsertAllAsDeclared<R(!new)>(t: seq<R>, rs: seq<R>, key: R -> Option<string>): seq<R>
    decreases |rs|
  {
    if rs == [] then t else InsertAllAsDeclared(InsertIfAbsentAsDeclared(t, rs[0], key), rs[1..], key)
  }

  lemma {:induction false} InsertAllAsDeclaredSnoc<R(!new)>(t: seq<R>, rs: seq<R>, r: R, key: R -> Option<string>)
    ensures InsertAllAsDeclared(t, rs + [r], key) == InsertIfAbsentAsDeclared(InsertAllAsDeclared(t, rs, key), r, key)
    decreases |rs|
  {
    if rs == [] {
      assert ([] + [r])[1..] == [];
    } else {
      assert (rs + [r])[1..] == rs[1..] + [r];
      InsertAllAsDeclaredSnoc(InsertIfAbsentAsDeclared(t, rs[0], key), rs[1..], r, key);
    }
  }

  /** The number of rows whose key is NULL. */
  function NullKeyed<R(!new)>(t: seq<R>, key: R -> Option<string>): nat
    decreases |t|
  {
    if t == [] then 0 else (if key(t[0]) == None then 1 else 0) + NullKeyed(t[1..], key)
  }

  lemma {:induction false} NullKeyedAppend<R(!new)>(a: seq<R>, b: seq<R>, key: R -> Option<string>)
    ensures NullKeyed(a + b, key) == NullKeyed(a, key) + NullKeyed(b, key)
    decreases |a|
  {
    if a == [] {
      assert a + b == b;
    } else {
      assert (a + b)[1..] == a[1..] + b;
      NullKeyedAppend(a[1..], b, key);
    }
  }

  /** Dropping by key never removes a NULL-keyed row. */
  lemma {:induction false} DropKeepsNullKeyed<R(!new)>(t: seq<R>, key: R -> Option<string>, ks: set<string>)
    ensures NullKeyed(Drop(t, key, ks), key) == NullKeyed(t, key)
    decreases |t|
  {
    if t != [] {
      var head := if KeyIn(key, t[0], ks) then [] else [t[0]];
      DropKeepsNullKeyed(t[1..], key, ks);
      NullKeyedAppend(head, Drop(t[1..], key, ks), key);
      if head != [] {
        assert head[1..] == [];
      }
    }
  }

  /** Every NULL-keyed row of a batch of the schema's replaces is stored anew. */
  lemma {:induction false} UpsertAllAsDeclaredNulls<R(!new)>(t: seq<R>, rs: seq<R>, key: R -> Option<string>)
    ensures NullKeyed(UpsertAllAsDeclared(t, rs, key), key) == NullKeyed(t, key) + NullKeyed(rs, key)
    decreases |rs|
  {
    if rs != [] {
      var r := rs[0];
      var u := UpsertAsDeclared(t, r, key);
      assert [r][1..] == [];
      if key(r) == None {
        NullKeyedAppend(t, [r], key);
      } else {
        var d := Drop(t, key, {key(r).value});
        NullKeyedAppend(d, [r], key);
        DropKeepsNullKeyed(t, key, {key(r).value});
      }
      UpsertAllAsDeclaredNulls(u, rs[1..], key);
    }
  }

  /** Every NULL-keyed row of a batch of the schema's inserts is stored anew. */
  lemma {:induction false} InsertAllAsDeclaredNulls<R(!new)>(t: seq<R>, rs: seq<R>, key: R -> Option<string>)
    ensures NullKeyed(InsertAllAsDeclared(t, rs, key), key) == NullKeyed(t, key) + NullKeyed(rs, key)
    decreases |rs|
  {
    if rs != [] {
      var r := rs[0];
      var u := InsertIfAbsentAsDeclared(t, r, key);
      assert [r][1..] == [];
      NullKeyedAppend(t, [r], key);
      InsertAllAsDeclaredNulls(u, rs[1..], key);
    }
  }

  /** On a batch without NULL keys the schema's replaces and the NOT NULL
      reading agree. */
  lemma {:induction false} UpsertAllKeyed<R(!new)>(t: seq<R>, rs: seq<R>, key: R -> Option<string>)
    requires NullKeyed(rs, key) == 0
    ensures UpsertAllAsDeclared(t, rs, key) == UpsertAll(t, rs, key)
    decreases |rs|
  {
    if rs != [] {
      UpsertAllKeyed(Upsert(t, rs[0], key), rs[1..], key);
    }
  }

  /** On a batch without NULL keys the schema's inserts and the NOT NULL
      reading agree. */
  lemma {:induction false} InsertAllKeyed<R(!new)>(t: seq<R>, rs: seq<R>, key: R -> Option<string>)
    requires NullKeyed(rs, key) == 0
    ensures InsertAllAsDeclared(t, rs, key) == InsertAll(t, rs, key)
    decreases |rs|
  {
    if rs != [] {
      InsertAllKeyed(InsertIfAbsent(t, rs[0], key), rs[1..], key);
    }
  }

  /** Writing the same NULL-keyed row twice stores it twice: replaying a sync
      grows the table, while the NOT NULL reading leaves it alone. */
  lemma NullKeyUpsertDuplicates<R(!new)>(t: seq<R>, r: R, key: R -> Option<string>)
    requires key(r) == None
    ensures UpsertAsDeclared(UpsertAsDeclared(t, r, key), r, key) == t + [r, r]
    ensures UpsertAsDeclared(UpsertAsDeclared(t, r, key), r, key) != UpsertAsDeclared(t, r, key)
    ensures Upsert(Upsert(t, r, key), r, key) == Upsert(t, r, key) == t
  {
    assert |t + [r, r]| != |t + [r]|;
  }

  lemma NullKeyInsertDuplicates<R(!new)>(t: seq<R>, r: R, key: R -> Option<string>)
    requires key(r) == None
    ensures InsertIfAbsentAsDeclared(InsertIfAbsentAsDeclared(t, r, key), r, key) == t + [r, r]
    ensures InsertIfAbsentAsDeclared(InsertIfAbsentAsDeclared(t, r, key), r, key) != InsertIfAbsentAsDeclared(t, r, key)
    ensures InsertIfAbsent(InsertIfAbsent(t, r, key), r, key) == InsertIfAbsent(t, r, key) == t
  {
    assert |t + [r, r]| != |t + [r]|;
  }
}
