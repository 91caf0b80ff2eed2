# Column index constraint of the SQLJet schema model

SQLJet represents a column-level `PRIMARY KEY` or `UNIQUE` constraint as a
`SqlJetColumnIndexConstraint`. The object records the index that materialises
the constraint by that index's name only. It never holds a pointer to an index
object. The owning column and the optional constraint name are given at
construction and handed to the superclass. The index name starts unset (Java
`null`). The schema resolver fills it in later through a package-private
setter, and a public getter reads it back.

The model is one Dafny class, `IndexConstraint.ColumnIndexConstraint`:

- `column` and `name` are `const` fields. They stand in for what the unseen
  superclass `SqlJetColumnConstraint` stores.
- `indexName: Option<string>` is the mutable field. Java `null` is `None`.
- A ghost field `History` lists every argument the setter has received since
  construction.
- `Valid()` ties the fields to a pure specification. The specification is
  `Replay(Initial(column, name), History)`, where `Replay` applies the writes
  in order, one `WithIndexName` step each.
- The getter is a function that `reads this`, so it cannot change anything.
- The setter `modifies` only `indexName` and the ghost history.

The lemmas about `Replay` give the properties that relate several calls:
identity is kept, the last write wins, a repeated write is idempotent, and an
earlier history stops mattering after a write.

## Model

| member | source | states |
|---|---|---|
| IndexConstraint.ColumnIndexConstraint.constructor | sqljet/src/org/tmatesoft/sqljet/core/internal/schema/SqlJetColumnIndexConstraint.java:26-30 | the new object keeps the given column and constraint name unchanged, has no index name (`None`), has an empty setter history, and is `Valid()` |
| IndexConstraint.ColumnIndexConstraint.GetIndexName | sqljet/src/org/tmatesoft/sqljet/core/internal/schema/SqlJetColumnIndexConstraint.java:32-34 | reads the object only and changes nothing; returns `None` while the setter has never been called, else the argument of the most recent setter call |
| IndexConstraint.ColumnIndexConstraint.SetIndexName | sqljet/src/org/tmatesoft/sqljet/core/internal/schema/SqlJetColumnIndexConstraint.java:36-38 | may change only the index name (and the ghost history); afterwards the index name and the getter's result are exactly the argument, `null`/`None` included; column and constraint name are untouched; the history grows by that argument and the object stays `Valid()` |
| IndexConstraint.ReplayKeepsIdentity | sqljet/src/org/tmatesoft/sqljet/core/internal/schema/SqlJetColumnIndexConstraint.java:36-38 | any sequence of setter calls leaves the column and the constraint name as they were |
| IndexConstraint.ReplayLastWriteWins | sqljet/src/org/tmatesoft/sqljet/core/internal/schema/SqlJetColumnIndexConstraint.java:32-38 | after a sequence of setter calls the index name is the last argument, or the previous index name when the sequence is empty |
| IndexConstraint.ReplayAppend | sqljet/src/org/tmatesoft/sqljet/core/internal/schema/SqlJetColumnIndexConstraint.java:36-38 | running two batches of setter calls one after the other is the same as running their concatenation |
| IndexConstraint.ReplaySnoc | sqljet/src/org/tmatesoft/sqljet/core/internal/schema/SqlJetColumnIndexConstraint.java:36-38 | one more setter call is one more overwrite step on the state reached so far |
| IndexConstraint.ReplayOverwrite | sqljet/src/org/tmatesoft/sqljet/core/internal/schema/SqlJetColumnIndexConstraint.java:36-38 | after a setter call the state is the starting state with only the index name replaced, whatever the earlier calls were |
| IndexConstraint.ReplayRepeatIdempotent | sqljet/src/org/tmatesoft/sqljet/core/internal/schema/SqlJetColumnIndexConstraint.java:36-38 | calling the setter twice with the same name leaves the same state as calling it once |
| IndexConstraint.ReplaySecondWriteWins | sqljet/src/org/tmatesoft/sqljet/core/internal/schema/SqlJetColumnIndexConstraint.java:36-38 | `set(a)` followed by `set(b)` leaves the same state as `set(b)` alone |

## Left out

- The superclass `SqlJetColumnConstraint` and the column definition `SqlJetColumnDef` are not part of this model. The column is a type parameter of the class, and the constraint name is an `Option<string>`. The model assumes the superclass constructor keeps `column` and `name` as given and that neither changes afterwards (both are `const`). Nothing else about either class is assumed.
- Index and constraint names are Dafny strings, whose characters are Unicode scalar values. Java strings holding unpaired UTF-16 surrogates are therefore outside the model; no behaviour depends on it, since the model never looks inside a name.
- How the schema resolver chooses an index name, and when it calls the setter, is not part of this model. Only the constraint object's own state is modelled.
- Java package-private visibility of the setter has no counterpart in Dafny. The setter is an ordinary method.
- The integration test `MalformedCreateTableTest.java` is left out. Its assertions depend on the DDL parser, the SQL serializer, catalog lookup, transactions and on-disk storage, none of which is part of this model.
- Object identity, concurrent access and Java's memory model are not modelled. The object is used by one thread at a time.
