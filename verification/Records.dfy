/** The rows of the four tables and the generic row algebra that the storage model is built on. */
module Records {
  type byte = b: int | 0 <= b < 256

  type Bytes = seq<byte>

  /** Every table has a voting-round column; `body` holds the other columns. */
  datatype Row<T> = Row(round: int, body: T)

  datatype Relay = Relay(block: int, protocol: int, secure: bool, root: string)

  datatype Random = Random(value: string, secure: bool)

  datatype Feed = Feed(id: string, value: int, turnout: int, decimals: int)

  datatype Attestation = Attestation(request: string, response: string, abi: string, proof: seq<string>)

  type Message = Row<Relay>

  /** The rows of round `r`, in table order. */
  function RowsOf<T>(rows: seq<Row<T>>, r: int): seq<Row<T>> {
    if rows == [] then []
    else if rows[0].round == r then [rows[0]] + RowsOf(rows[1..], r)
    else RowsOf(rows[1..], r)
  }

  /** The rows that survive a deletion of every round below `c`. */
  function RowsFrom<T>(rows: seq<Row<T>>, c: int): seq<Row<T>> {
    if rows == [] then []
    else if rows[0].round < c then RowsFrom(rows[1..], c)
    else [rows[0]] + RowsFrom(rows[1..], c)
  }

  ghost predicate Tagged<T>(rows: seq<Row<T>>, r: int) {
    forall i :: 0 <= i < |rows| ==> rows[i].round == r
  }

  lemma {:induction false} RowsOfAppend<T>(a: seq<Row<T>>, b: seq<Row<T>>, r: int)
    ensures RowsOf(a + b, r) == RowsOf(a, r) + RowsOf(b, r)
  {
    if a == [] {
      assert a + b == b;
    } else {
      assert (a + b)[1..] == a[1..] + b;
      RowsOfAppend(a[1..], b, r);
    }
  }

  lemma {:induction false} RowsFromAppend<T>(a: seq<Row<T>>, b: seq<Row<T>>, c: int)
    ensures RowsFrom(a + b, c) == RowsFrom(a, c) + RowsFrom(b, c)
  {
    if a == [] {
      assert a + b == b;
    } else {
      assert (a + b)[1..] == a[1..] + b;
      RowsFromAppend(a[1..], b, c);
    }
  }

  lemma {:induction false} RowsOfTagged<T>(rows: seq<Row<T>>, tag: int, r: int)
    requires Tagged(rows, tag)
    ensures RowsOf(rows, r) == if r == tag then rows else []
  {
    if rows != [] {
      RowsOfTagged(rows[1..], tag, r);
    }
  }

  lemma {:induction false} RowsFromTagged<T>(rows: seq<Row<T>>, tag: int, c: int)
    requires Tagged(rows, tag)
    ensures RowsFrom(rows, c) == if tag < c then [] else rows
  {
    if rows != [] {
      RowsFromTagged(rows[1..], tag, c);
    }
  }

  /** A deletion below `c` empties the rounds below `c` and leaves the others as they are. */
  lemma {:induction false} RowsOfFrom<T>(rows: seq<Row<T>>, c: int, r: int)
    ensures RowsOf(RowsFrom(rows, c), r) == if r < c then [] else RowsOf(rows, r)
  {
    if rows != [] {
      RowsOfFrom(rows[1..], c, r);
    }
  }

  lemma {:induction false} RowsFromFrom<T>(rows: seq<Row<T>>, c: int, d: int)
    ensures RowsFrom(RowsFrom(rows, c), d) == RowsFrom(rows, if c < d then d else c)
  {
    if rows != [] {
      RowsFromFrom(rows[1..], c, d);
    }
  }

  lemma {:induction false} RowsFromMembers<T>(rows: seq<Row<T>>, c: int, row: Row<T>)
    ensures row in RowsFrom(rows, c) <==> row in rows && row.round >= c
  {
    if rows != [] {
      RowsFromMembers(rows[1..], c, row);
    }
  }

  lemma {:induction false} RowsOfMembers<T>(rows: seq<Row<T>>, r: int, row: Row<T>)
    ensures row in RowsOf(rows, r) <==> row in rows && row.round == r
  {
    if rows != [] {
      RowsOfMembers(rows[1..], r, row);
    }
  }
}
