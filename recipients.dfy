/** The recipient cleaning of `NUBot.add_user`: a row of the recipient
    sheet is kept when both of its raw fields are non-empty, and is stored
    with both fields stripped. The test is made BEFORE stripping, so a field
    of whitespace only passes it and is stored as the empty string. */
module Recipients {
  import opened Text

  /** One row of the sheet's `userInfo` list. */
  datatype Row = Row(name: String, emailAddress: String)

  /** One entry of `user_info`. */
  datatype User = User(name: String, email: String)

  /** `user['name'] and user['emailAddress']`: both raw fields non-empty.
      The test is on the raw fields, so it refuses fewer rows than a test
      after stripping would: every refused row is blank once stripped. */
  predicate IsComplete(row: Row)
    ensures !IsComplete(row) ==> Strip(row.name) == [] || Strip(row.emailAddress) == []
  {
    row.name != [] && row.emailAddress != []
  }

  /** The stored form of a row, whose fields are already stripped: cleaning
      a stored user again would change nothing. */
  function Clean(row: Row): (u: User)
    ensures Strip(u.name) == u.name && Strip(u.email) == u.email
  {
    StripIdempotent(row.name);
    StripIdempotent(row.emailAddress);
    User(Strip(row.name), Strip(row.emailAddress))
  }

  /** The users `add_user` appends for `rows`, taken in order. */
  function Accepted(rows: seq<Row>): (r: seq<User>)
    ensures |r| <= |rows|
  {
    if rows == [] then []
    else Accepted(rows[..|rows| - 1]) + Admit(rows[|rows| - 1])
  }

  /** What one call of `add_user` appends: the cleaned row, or nothing. */
  function Admit(row: Row): (r: seq<User>)
    ensures |r| <= 1
  {
    if IsComplete(row) then [Clean(row)] else []
  }

  /** One more row appends what `add_user` makes of it. */
  lemma AcceptedSnoc(rows: seq<Row>, row: Row)
    ensures Accepted(rows + [row]) == Accepted(rows) + Admit(row)
  {
    assert (rows + [row])[..|rows|] == rows;
  }

  /** The loop's step: the users of one more row of the list. */
  lemma AcceptedPrefixStep(rows: seq<Row>, i: nat)
    requires i < |rows|
    ensures Accepted(rows[..i + 1]) == Accepted(rows[..i]) + Admit(rows[i])
  {
    assert rows[..i + 1] == rows[..i] + [rows[i]];
    AcceptedSnoc(rows[..i], rows[i]);
  }

  /** Cleaning goes row by row: the users of two batches of rows are the
      users of the first batch followed by those of the second. */
  lemma {:induction false} AcceptedAppend(a: seq<Row>, b: seq<Row>)
    ensures Accepted(a + b) == Accepted(a) + Accepted(b)
    decreases |b|
  {
    if b == [] {
      assert a + b == a;
    } else {
      var init, last := b[..|b| - 1], b[|b| - 1];
      SnocSplit(a, b);
      calc {
        Accepted(a + b);
      ==
        Accepted((a + init) + [last]);
      == { AcceptedSnoc(a + init, last); }
        Accepted(a + init) + Admit(last);
      == { AcceptedAppend(a, init); }
        (Accepted(a) + Accepted(init)) + Admit(last);
      ==
        Accepted(a) + (Accepted(init) + Admit(last));
      == { AcceptedSnoc(init, last); }
        Accepted(a) + Accepted(b);
      }
    }
  }

  /** Splitting off the last row of a non-empty second batch. */
  lemma SnocSplit(a: seq<Row>, b: seq<Row>)
    requires b != []
    ensures b == b[..|b| - 1] + [b[|b| - 1]]
    ensures a + b == (a + b[..|b| - 1]) + [b[|b| - 1]]
  {
  }

  /** A row is stored (in cleaned form) when it is complete, and every stored
      user comes from a complete row. */
  lemma {:induction false} AcceptedMembers(rows: seq<Row>)
    ensures forall k :: 0 <= k < |rows| && IsComplete(rows[k]) ==> Clean(rows[k]) in Accepted(rows)
    ensures forall u :: u in Accepted(rows) ==>
              exists k :: 0 <= k < |rows| && IsComplete(rows[k]) && u == Clean(rows[k])
  {
    if rows != [] {
      var n := |rows| - 1;
      var init := rows[..n];
      AcceptedMembers(init);
      assert rows == init + [rows[n]];
      AcceptedSnoc(init, rows[n]);
      forall u | u in Accepted(rows)
        ensures exists k :: 0 <= k < |rows| && IsComplete(rows[k]) && u == Clean(rows[k])
      {
        if u in Accepted(init) {
          var k :| 0 <= k < n && IsComplete(init[k]) && u == Clean(init[k]);
          assert rows[k] == init[k];
        } else {
          assert IsComplete(rows[n]) && u == Clean(rows[n]);
        }
      }
      forall k | 0 <= k < |rows| && IsComplete(rows[k])
        ensures Clean(rows[k]) in Accepted(rows)
      {
        if k < n { assert init[k] == rows[k]; }
      }
    }
  }

  /** Nobody is stored exactly when no row has both fields filled in. */
  lemma {:induction false} AcceptedEmptyIff(rows: seq<Row>)
    ensures Accepted(rows) == [] <==> forall k :: 0 <= k < |rows| ==> !IsComplete(rows[k])
  {
    AcceptedMembers(rows);
    if Accepted(rows) != [] {
      assert Accepted(rows)[0] in Accepted(rows);
    }
  }

  /** A name of a single space passes the check and is stored empty; stripped
      names are not re-checked, so re-adding that user would drop it. */
  lemma BlankNameAccepted()
    ensures Accepted([Row(" ", "a@b.com")]) == [User("", "a@b.com")]
    ensures !IsComplete(Row("", "a@b.com"))
  {
    var rows := [Row(" ", "a@b.com")];
    assert rows[..0] == [];
    assert Strip(" ") == Strip(" "[1..]) == [];
    assert Strip("a@b.com") == "a@b.com";
  }
}
