/**
 * The column-level constraint behind PRIMARY KEY and UNIQUE: it remembers, by
 * name only, the index that materialises it.  The schema resolver fills the
 * name in after construction; until then it is unset (Java null, here None).
 *
 * The owning column definition and the optional constraint name belong to the
 * superclass, which is not part of this model; they are kept here as immutable
 * values.  The column is a type parameter because nothing about it is used.
 */
module IndexConstraint {
  import opened Wrappers

  /** The observable state of one constraint object. */
  datatype Snapshot<Col> = Snapshot(column: Col, name: Option<string>, indexName: Option<string>)

  /** The state of a constraint right after construction. */
  function Initial<Col>(column: Col, name: Option<string>): Snapshot<Col>
  {
    Snapshot(column, name, None)
  }

  /** The effect of one call of the index-name setter. */
  function WithIndexName<Col>(s: Snapshot<Col>, indexName: Option<string>): Snapshot<Col>
  {
    s.(indexName := indexName)
  }

  /** The state reached from `s` by calling the setter with each of `writes`, first one first. */
  function Replay<Col>(s: Snapshot<Col>, writes: seq<Option<string>>): Snapshot<Col>
    decreases |writes|
  {
    if writes == [] then s else Replay(WithIndexName(s, writes[0]), writes[1..])
  }

  /** The setter never touches the column or the constraint name. */
  lemma {:induction false} ReplayKeepsIdentity<Col>(s: Snapshot<Col>, writes: seq<Option<string>>)
    ensures Replay(s, writes).column == s.column
    ensures Replay(s, writes).name == s.name
    decreases |writes|
  {
    if writes != [] {
      ReplayKeepsIdentity(WithIndexName(s, writes[0]), writes[1..]);
    }
  }

  /** The index name is the argument of the last write, or the old one when nothing was written. */
  lemma {:induction false} ReplayLastWriteWins<Col>(s: Snapshot<Col>, writes: seq<Option<string>>)
    ensures writes == [] ==> Replay(s, writes).indexName == s.indexName
    ensures writes != [] ==> Replay(s, writes).indexName == writes[|writes| - 1]
    decreases |writes|
  {
    if |writes| > 1 {
      ReplayLastWriteWins(WithIndexName(s, writes[0]), writes[1..]);
    }
  }

  /** Writing `a` and then `b` is replaying `b` on the state `a` left behind. */
  lemma {:induction false} ReplayAppend<Col>(s: Snapshot<Col>, a: seq<Option<string>>, b: seq<Option<string>>)
    ensures Replay(s, a + b) == Replay(Replay(s, a), b)
    decreases |a|
  {
    if a == [] {
      assert a + b == b;
    } else {
      assert (a + b)[0] == a[0] && (a + b)[1..] == a[1..] + b;
      ReplayAppend(WithIndexName(s, a[0]), a[1..], b);
    }
  }

  /** One more write is one more setter step on the state reached so far. */
  lemma {:induction false} ReplaySnoc<Col>(s: Snapshot<Col>, writes: seq<Option<string>>, indexName: Option<string>)
    ensures Replay(s, writes + [indexName]) == WithIndexName(Replay(s, writes), indexName)
  {
    ReplayAppend(s, writes, [indexName]);
  }

  /** After a write, the state no longer depends on any earlier write. */
  lemma {:induction false} ReplayOverwrite<Col>(s: Snapshot<Col>, writes: seq<Option<string>>, indexName: Option<string>)
    ensures Replay(s, writes + [indexName]) == WithIndexName(s, indexName)
  {
    ReplaySnoc(s, writes, indexName);
    ReplayKeepsIdentity(s, writes);
  }

  /** Setting the same index name twice leaves the state that setting it once leaves. */
  lemma {:induction false} ReplayRepeatIdempotent<Col>(s: Snapshot<Col>, writes: seq<Option<string>>, indexName: Option<string>)
    ensures Replay(s, writes + [indexName, indexName]) == Replay(s, writes + [indexName])
  {
    assert writes + [indexName, indexName] == (writes + [indexName]) + [indexName];
    ReplayOverwrite(s, writes + [indexName], indexName);
    ReplayOverwrite(s, writes, indexName);
  }

  /** Two writes in a row: the second one decides the index name (`ReplayOverwrite` with one earlier write). */
  lemma ReplaySecondWriteWins<Col>(s: Snapshot<Col>, first: Option<string>, second: Option<string>)
    ensures Replay(s, [first, second]) == Replay(s, [second])
  {
    ReplayOverwrite(s, [first], second);
  }

  /**
   * A constraint object.  `History` is the sequence of arguments the setter has
   * received since construction; `Valid()` says the fields are what replaying
   * that history on the initial state gives.
   */
  class ColumnIndexConstraint<Col> {
    const column: Col
    const name: Option<string>
    var indexName: Option<string>
    ghost var History: seq<Option<string>>

    ghost function State(): Snapshot<Col>
      reads this
    {
      Snapshot(column, name, indexName)
    }

    ghost predicate Valid()
      reads this
    {
      State() == Replay(Initial(column, name), History)
    }

    /** A new constraint on `column`, named `name`, with no index name yet. */
    constructor (column: Col, name: Option<string>)
      ensures Valid()
      ensures State() == Initial(column, name)
      ensures this.column == column && this.name == name
      ensures History == [] && indexName == None
    {
      this.column := column;
      this.name := name;
      indexName := None;
      History := [];
    }

    /** The index name: unset until the setter is first called, then its last argument. */
    function GetIndexName(): (r: Option<string>)
      requires Valid()
      reads this
      ensures History == [] ==> r == None
      ensures History != [] ==> r == History[|History| - 1]
    {
      ReplayLastWriteWins(Initial(column, name), History);
      indexName
    }

    /** Records `indexName` as the name of the index this constraint materialises. */
    method SetIndexName(indexName: Option<string>)
      requires Valid()
      modifies this`indexName, this`History
      ensures Valid()
      ensures State() == WithIndexName(old(State()), indexName)
      ensures History == old(History) + [indexName]
      ensures this.indexName == indexName
      ensures GetIndexName() == indexName
    {
      ReplaySnoc(Initial(column, name), History, indexName);
      this.indexName := indexName;
      History := History + [indexName];
    }
  }
}
