/**
 * A MongoDB collection as the backend uses it: a sequence of documents in
 * natural (insertion) order, each with its `_id`, and the Mongoose queries
 * the routes call, as functions of the collection.
 */
module Collection {
  import opened Wrappers

  /** A document `_id` (an ObjectId; here a number handed out by the store). */
  type Id = nat

  datatype Doc<T> = Doc(id: Id, body: T)

  ghost predicate UniqueIds<T>(c: seq<Doc<T>>)
  {
    forall i, j :: 0 <= i < j < |c| ==> c[i].id != c[j].id
  }

  ghost predicate IdsBelow<T(!new)>(c: seq<Doc<T>>, bound: Id)
  {
    forall d :: d in c ==> d.id < bound
  }

  predicate HasId<T>(c: seq<Doc<T>>, id: Id)
  {
    exists i :: 0 <= i < |c| && c[i].id == id
  }

  /** `Model.findById(id)`: the body stored under `id`, or null. */
  function FindById<T>(c: seq<Doc<T>>, id: Id): (r: Option<T>)
    ensures r.None? <==> !HasId(c, id)
    ensures r.Some? ==> Doc(id, r.value) in c
  {
    if c == [] then None
    else if c[0].id == id then Some(c[0].body)
    else
      var r := FindById(c[1..], id);
      assert HasId(c, id) ==> c[0].id == id || HasId(c[1..], id) by {
        if HasId(c, id) {
          var i :| 0 <= i < |c| && c[i].id == id;
          if i > 0 { assert c[1..][i - 1].id == id; }
        }
      }
      r
  }

  /** `Model.findOne(filter)`: the first document in natural order whose body matches. */
  function FindOne<T>(c: seq<Doc<T>>, matches: T -> bool): (r: Option<Doc<T>>)
    ensures r.None? <==> forall i :: 0 <= i < |c| ==> !matches(c[i].body)
    ensures r.Some? ==> exists i :: 0 <= i < |c| && c[i] == r.value && matches(c[i].body)
                                    && forall j :: 0 <= j < i ==> !matches(c[j].body)
  {
    if c == [] then None
    else if matches(c[0].body) then Some(c[0])
    else
      var r := FindOne(c[1..], matches);
      assert r.Some? ==> exists i :: 0 <= i < |c| && c[i] == r.value && matches(c[i].body)
                                     && forall j :: 0 <= j < i ==> !matches(c[j].body) by {
        if r.Some? {
          var i :| 0 <= i < |c[1..]| && c[1..][i] == r.value && matches(c[1..][i].body)
                   && forall j :: 0 <= j < i ==> !matches(c[1..][j].body);
          assert c[i + 1] == r.value;
          forall j | 0 <= j < i + 1 ensures !matches(c[j].body) {
            if j > 0 { assert c[j] == c[1..][j - 1]; }
          }
        }
      }
      assert r.None? ==> forall i :: 0 <= i < |c| ==> !matches(c[i].body) by {
        if r.None? {
          forall i | 0 <= i < |c| ensures !matches(c[i].body) {
            if i > 0 { assert c[i] == c[1..][i - 1]; }
          }
        }
      }
      r
  }

  /** `Model.find(filter)`: the documents the filter selects, in stored order. */
  function Find<T(!new)>(c: seq<Doc<T>>, matches: Doc<T> -> bool): (r: seq<Doc<T>>)
    ensures forall d :: d in r <==> d in c && matches(d)
    ensures |r| <= |c|
    ensures UniqueIds(c) ==> UniqueIds(r)
  {
    if c == [] then []
    else
      var rest := Find(c[1..], matches);
      assert forall d :: d in c <==> d == c[0] || d in c[1..];
      if !matches(c[0]) then rest
      else
        assert UniqueIds(c) ==> forall d :: d in rest ==> d.id != c[0].id by {
          if UniqueIds(c) {
            forall d | d in rest ensures d.id != c[0].id {
              var k :| 0 <= k < |c[1..]| && c[1..][k] == d;
              assert c[k + 1] == d;
            }
          }
        }
        [c[0]] + rest
  }

  /** Finding in two stretches of a collection finds in each, in order. */
  lemma {:induction false} FindAppend<T(!new)>(c: seq<Doc<T>>, more: seq<Doc<T>>, matches: Doc<T> -> bool)
    ensures Find(c + more, matches) == Find(c, matches) + Find(more, matches)
  {
    if c == [] {
      assert c + more == more;
    } else {
      assert (c + more)[1..] == c[1..] + more;
      FindAppend(c[1..], more, matches);
    }
  }

  /** Documents that all match are all found, in their order. */
  lemma {:induction false} FindAll<T(!new)>(c: seq<Doc<T>>, matches: Doc<T> -> bool)
    requires forall i :: 0 <= i < |c| ==> matches(c[i])
    ensures Find(c, matches) == c
  {
    if c != [] {
      FindAll(c[1..], matches);
    }
  }

  /** A filter no document matches finds nothing. */
  lemma {:induction false} FindNone<T(!new)>(c: seq<Doc<T>>, matches: Doc<T> -> bool)
    requires forall i :: 0 <= i < |c| ==> !matches(c[i])
    ensures Find(c, matches) == []
  {
    if c != [] {
      FindNone(c[1..], matches);
    }
  }

  /** The filter `{ _id: id }`. */
  function WithId<T>(id: Id): Doc<T> -> bool
  {
    (d: Doc<T>) => d.id == id
  }

  /** The documents a filter does not select. */
  function Not<T>(selected: Doc<T> -> bool): Doc<T> -> bool
  {
    (d: Doc<T>) => !selected(d)
  }

  /** `Model.deleteMany(filter)`: every document the filter selects is gone,
      every other one stays, in the same order. */
  function DeleteWhere<T(!new)>(c: seq<Doc<T>>, selected: Doc<T> -> bool): (r: seq<Doc<T>>)
    ensures forall d :: d in r <==> d in c && !selected(d)
    ensures UniqueIds(c) ==> UniqueIds(r)
  {
    Find(c, Not(selected))
  }

  /** Deleting from two stretches of a collection deletes from each and
      keeps the survivors in their order. */
  lemma {:induction false} DeleteWhereAppend<T(!new)>(c: seq<Doc<T>>, more: seq<Doc<T>>, selected: Doc<T> -> bool)
    ensures DeleteWhere(c + more, selected) == DeleteWhere(c, selected) + DeleteWhere(more, selected)
  {
    FindAppend(c, more, Not(selected));
  }

  /** A filter that selects nothing leaves the collection as it was. */
  lemma {:induction false} DeleteWhereNothing<T(!new)>(c: seq<Doc<T>>, selected: Doc<T> -> bool)
    requires forall i :: 0 <= i < |c| ==> !selected(c[i])
    ensures DeleteWhere(c, selected) == c
  {
    FindAll(c, Not(selected));
  }

  /** A filter that selects everything empties the collection. */
  lemma {:induction false} DeleteWhereEverything<T(!new)>(c: seq<Doc<T>>, selected: Doc<T> -> bool)
    requires forall i :: 0 <= i < |c| ==> selected(c[i])
    ensures DeleteWhere(c, selected) == []
  {
    FindNone(c, Not(selected));
  }

  /** `Model.findByIdAndDelete(id)` on a collection whose ids are unique. */
  function DeleteById<T(!new)>(c: seq<Doc<T>>, id: Id): (r: seq<Doc<T>>)
    ensures forall d :: d in r <==> d in c && d.id != id
    ensures !HasId(r, id)
    ensures UniqueIds(c) ==> UniqueIds(r)
  {
    DeleteWhere(c, WithId(id))
  }

  /** Deleting the one selected document between unselected ones leaves
      the others in their order. */
  lemma {:induction false} DeleteWhereOne<T(!new)>(before: seq<Doc<T>>, d: Doc<T>, after: seq<Doc<T>>,
                                                   selected: Doc<T> -> bool)
    requires forall i :: 0 <= i < |before| ==> !selected(before[i])
    requires selected(d)
    requires forall i :: 0 <= i < |after| ==> !selected(after[i])
    ensures DeleteWhere(before + [d] + after, selected) == before + after
  {
    calc {
      DeleteWhere(before + [d] + after, selected);
    == { DeleteWhereAppend(before + [d], after, selected); }
      DeleteWhere(before + [d], selected) + DeleteWhere(after, selected);
    == { DeleteWhereAppend(before, [d], selected); }
      DeleteWhere(before, selected) + DeleteWhere([d], selected) + DeleteWhere(after, selected);
    == { DeleteWhereNothing(before, selected); DeleteWhereEverything([d], selected); DeleteWhereNothing(after, selected); }
      before + [] + after;
    }
  }

  /** Deleting the document at position `k` removes that position and
      nothing else: the others keep their order. */
  lemma {:induction false} DeleteByIdAt<T(!new)>(c: seq<Doc<T>>, k: nat)
    requires UniqueIds(c) && k < |c|
    ensures DeleteById(c, c[k].id) == c[..k] + c[k + 1..]
  {
    var id, before, after := c[k].id, c[..k], c[k + 1..];
    forall i | 0 <= i < |before| ensures !WithId(id)(before[i]) {
      assert before[i] == c[i];
    }
    forall i | 0 <= i < |after| ensures !WithId(id)(after[i]) {
      assert after[i] == c[k + 1 + i];
    }
    DeleteWhereOne(before, c[k], after, WithId(id));
    assert c == before + [c[k]] + after;
  }

  /** Deleting an id no document has changes nothing. */
  lemma {:induction false} DeleteByIdAbsent<T(!new)>(c: seq<Doc<T>>, id: Id)
    requires !HasId(c, id)
    ensures DeleteById(c, id) == c
  {
    DeleteWhereNothing(c, WithId(id));
  }

  /** `Model.findByIdAndUpdate(id, update)` (and `save()` of a loaded
      document): the document with that id gets `update` applied, every other
      document and every id stays; nothing happens when `id` is absent. */
  function UpdateById<T>(c: seq<Doc<T>>, id: Id, update: T -> T): (r: seq<Doc<T>>)
    ensures |r| == |c|
    ensures forall i :: 0 <= i < |c| ==> r[i].id == c[i].id
    ensures forall i :: 0 <= i < |c| && c[i].id != id ==> r[i] == c[i]
    ensures forall i :: 0 <= i < |c| && c[i].id == id ==> r[i].body == update(c[i].body)
    ensures UniqueIds(c) ==> UniqueIds(r)
  {
    if c == [] then []
    else
      var rest := UpdateById(c[1..], id, update);
      var r := [if c[0].id == id then Doc(id, update(c[0].body)) else c[0]] + rest;
      assert forall i :: 1 <= i < |c| ==> r[i] == rest[i - 1] && c[i] == c[1..][i - 1];
      r
  }

  ghost predicate SortedDescending<T>(c: seq<Doc<T>>, key: T -> int)
  {
    forall i, j :: 0 <= i < j < |c| ==> key(c[i].body) >= key(c[j].body)
  }

  /** Inserts one document into a list sorted by descending key. */
  function InsertDescending<T>(d: Doc<T>, sorted: seq<Doc<T>>, key: T -> int): (r: seq<Doc<T>>)
    requires SortedDescending(sorted, key)
    ensures |r| == |sorted| + 1
    ensures r[0] == d || (sorted != [] && r[0] == sorted[0])
    ensures SortedDescending(r, key)
    ensures multiset(r) == multiset(sorted) + multiset{d}
  {
    if sorted == [] || key(d.body) >= key(sorted[0].body) then [d] + sorted
    else
      var rest := InsertDescending(d, sorted[1..], key);
      assert sorted == [sorted[0]] + sorted[1..];
      assert key(sorted[0].body) >= key(rest[0].body);
      [sorted[0]] + rest
  }

  /** `Model.find().sort({ key: -1 })`: all documents, newest key first. */
  function SortDescending<T>(c: seq<Doc<T>>, key: T -> int): (r: seq<Doc<T>>)
    ensures SortedDescending(r, key)
    ensures multiset(r) == multiset(c)
  {
    if c == [] then []
    else
      assert c == [c[0]] + c[1..];
      InsertDescending(c[0], SortDescending(c[1..], key), key)
  }
}
