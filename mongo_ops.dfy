/** The two MongoDB array update operators the follow handlers use, on arrays of ObjectIds. */
module MongoOps {
  import opened Json

  /** Why a document's `save()` rejects: a `required` field is empty, or a unique index already holds the value. */
  datatype SaveError = ValidationFailed | DuplicateKey

  predicate NoDup(s: seq<ObjectId>) {
    forall i, j :: 0 <= i < j < |s| ==> s[i] != s[j]
  }

  /** `$addToSet`: append `x` unless it is already there. */
  function AddToSet(s: seq<ObjectId>, x: ObjectId): (r: seq<ObjectId>)
    ensures forall y :: y in r <==> y in s || y == x
    ensures NoDup(s) ==> NoDup(r)
    ensures x !in s ==> r == s + [x]
    ensures x in s ==> r == s
  {
    if x in s then s else s + [x]
  }

  /** `$pull`: remove every occurrence of `x`, keeping the rest in order. */
  function Pull(s: seq<ObjectId>, x: ObjectId): (r: seq<ObjectId>)
    ensures forall y :: y in r <==> y in s && y != x
    ensures |r| <= |s|
    ensures NoDup(s) ==> NoDup(r)
  {
    if s == [] then []
    else
      var rest := Pull(s[1..], x);
      assert NoDup(s) ==> NoDup(s[1..]) && s[0] !in s[1..] by {
        if NoDup(s) {
          forall k | 0 <= k < |s| - 1 ensures s[1..][k] != s[0] {
            assert s[1..][k] == s[k + 1];
          }
        }
      }
      if s[0] == x then rest else [s[0]] + rest
  }

  /** Pulling a value that is not there changes nothing. */
  lemma {:induction false} PullAbsent(s: seq<ObjectId>, x: ObjectId)
    requires x !in s
    ensures Pull(s, x) == s
  {
    if s != [] {
      PullAbsent(s[1..], x);
      assert s == [s[0]] + s[1..];
    }
  }

  /** `$pull` distributes over concatenation. */
  lemma {:induction false} PullConcat(s: seq<ObjectId>, t: seq<ObjectId>, x: ObjectId)
    ensures Pull(s + t, x) == Pull(s, x) + Pull(t, x)
  {
    if s == [] {
      assert s + t == t;
    } else {
      assert (s + t)[1..] == s[1..] + t;
      PullConcat(s[1..], t, x);
    }
  }

  /** `$pull` undoes an `$addToSet` of a value that was absent. */
  lemma PullUndoesAddToSet(s: seq<ObjectId>, x: ObjectId)
    requires x !in s
    ensures Pull(AddToSet(s, x), x) == s
  {
    PullConcat(s, [x], x);
    PullAbsent(s, x);
    assert Pull([x], x) == [];
  }

  /** `$addToSet` undoes a `$pull` of the last element of a duplicate-free array. */
  lemma AddToSetUndoesPull(s: seq<ObjectId>, x: ObjectId)
    requires NoDup(s) && s != [] && s[|s| - 1] == x
    ensures AddToSet(Pull(s, x), x) == s
  {
    var init := s[..|s| - 1];
    assert s == init + [x];
    assert x !in init by {
      forall k | 0 <= k < |init| ensures init[k] != x {
        assert init[k] == s[k];
      }
    }
    PullConcat(init, [x], x);
    PullAbsent(init, x);
    assert Pull([x], x) == [];
    assert Pull(s, x) == init;
    assert AddToSet(init, x) == init + [x];
  }
}
