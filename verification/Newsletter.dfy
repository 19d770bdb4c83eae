/**
 * The newsletter's double opt-in (backend/internal/store/newsletter.go). A
 * token stands for its own hash, so two different tokens never collide.
 */
module Newsletter {
  import opened Wrappers

  datatype Row = Row(token: nat, confirmedAt: Option<int>, unsubscribedAt: Option<int>)

  datatype Status = NotSubscribed | AwaitingConfirmation | Subscribed

  predicate LiveRecipient(r: Row) {
    r.confirmedAt.Some? && r.unsubscribedAt.None?
  }

  function OrNow(at: Option<int>, now: int): Option<int> {
    if at.Some? then at else Some(now)
  }

  // ----- The table, statement by statement ----------------------------------------------

  function AfterSubscribe(rows: map<string, Row>, email: string, token: nat): map<string, Row> {
    if email !in rows then rows[email := Row(token, None, None)]
    else if LiveRecipient(rows[email]) then rows
    else rows[email := Row(token, if rows[email].unsubscribedAt.Some? then None else rows[email].confirmedAt, None)]
  }

  function AfterConfirm(rows: map<string, Row>, token: nat, now: int): map<string, Row> {
    map e | e in rows ::
      if rows[e].token == token then rows[e].(confirmedAt := OrNow(rows[e].confirmedAt, now), unsubscribedAt := None)
      else rows[e]
  }

  function AfterUnsubscribe(rows: map<string, Row>, token: nat, now: int): map<string, Row> {
    map e | e in rows ::
      if rows[e].token == token then rows[e].(unsubscribedAt := OrNow(rows[e].unsubscribedAt, now)) else rows[e]
  }

  function AfterUnsubscribeByEmail(rows: map<string, Row>, email: string, now: int): map<string, Row> {
    if email in rows then rows[email := rows[email].(unsubscribedAt := OrNow(rows[email].unsubscribedAt, now))]
    else rows
  }

  predicate Matches(rows: map<string, Row>, token: nat) {
    exists e | e in rows :: rows[e].token == token
  }

  function StatusOf(rows: map<string, Row>, email: string): Status {
    if email !in rows || rows[email].unsubscribedAt.Some? then NotSubscribed
    else if rows[email].confirmedAt.Some? then Subscribed
    else AwaitingConfirmation
  }

  class Subscribers {
    var rows: map<string, Row>

    /** The upsert: every column of the existing row is recomputed by its own rule. */
    method Subscribe(email: string, token: nat) returns (needsConfirmation: bool)
      modifies this
      ensures rows == AfterSubscribe(old(rows), email, token)
      ensures needsConfirmation == (StatusOf(rows, email) == AwaitingConfirmation)
    {
      if email !in rows {
        rows := rows[email := Row(token, None, None)];
      } else {
        var was := rows[email];
        var kept := if was.confirmedAt.Some? && was.unsubscribedAt.None? then was.token else token;
        var confirmed := if was.unsubscribedAt.Some? then None else was.confirmedAt;
        rows := rows[email := Row(kept, confirmed, None)];
      }
      needsConfirmation := rows[email].confirmedAt.None?;
    }

    method Confirm(token: nat, now: int) returns (found: bool)
      modifies this
      ensures rows == AfterConfirm(old(rows), token, now)
      ensures found == Matches(old(rows), token)
    {
      found := false;
      var todo := rows.Keys;
      while todo != {}
        invariant rows.Keys == old(rows).Keys && todo <= rows.Keys
        invariant forall e | e in rows ::
                    rows[e] == if e in todo then old(rows)[e] else AfterConfirm(old(rows), token, now)[e]
        invariant found == exists e | e in rows :: e !in todo && old(rows)[e].token == token
        decreases |todo|
      {
        var e :| e in todo;
        todo := todo - {e};
        if rows[e].token == token {
          rows := rows[e := rows[e].(confirmedAt := OrNow(rows[e].confirmedAt, now), unsubscribedAt := None)];
          found := true;
        }
      }
      assert rows == AfterConfirm(old(rows), token, now);
    }

    /** The link at the foot of a letter; the first instant is the one that is kept. */
    method Unsubscribe(token: nat, now: int) returns (found: bool)
      modifies this
      ensures rows == AfterUnsubscribe(old(rows), token, now)
      ensures found == Matches(old(rows), token)
    {
      found := false;
      var todo := rows.Keys;
      while todo != {}
        invariant rows.Keys == old(rows).Keys && todo <= rows.Keys
        invariant forall e | e in rows ::
                    rows[e] == if e in todo then old(rows)[e] else AfterUnsubscribe(old(rows), token, now)[e]
        invariant found == exists e | e in rows :: e !in todo && old(rows)[e].token == token
        decreases |todo|
      {
        var e :| e in todo;
        todo := todo - {e};
        if rows[e].token == token {
          rows := rows[e := rows[e].(unsubscribedAt := OrNow(rows[e].unsubscribedAt, now))];
          found := true;
        }
      }
      assert rows == AfterUnsubscribe(old(rows), token, now);
    }

    method UnsubscribeByEmail(email: string, now: int)
      modifies this
      ensures rows == AfterUnsubscribeByEmail(old(rows), email, now)
    {
      if email in rows && rows[email].unsubscribedAt.None? {
        rows := rows[email := rows[email].(unsubscribedAt := Some(now))];
      }
    }
  }

  // ----- Runs --------------------------------------------------------------------------------

  datatype Op =
    | DoSubscribe(email: string, token: nat)
    | DoConfirm(token: nat, at: int)
    | DoUnsubscribe(token: nat, at: int)
    | DoUnsubscribeByEmail(email: string, at: int)
    | DoForget(email: string)

  function Apply(rows: map<string, Row>, op: Op): map<string, Row> {
    match op
    case DoSubscribe(email, token) => AfterSubscribe(rows, email, token)
    case DoConfirm(token, at) => AfterConfirm(rows, token, at)
    case DoUnsubscribe(token, at) => AfterUnsubscribe(rows, token, at)
    case DoUnsubscribeByEmail(email, at) => AfterUnsubscribeByEmail(rows, email, at)
    case DoForget(email) => rows - {email}
  }

  function Run(ops: seq<Op>): map<string, Row> {
    if ops == [] then map[] else Apply(Run(ops[..|ops| - 1]), ops[|ops| - 1])
  }

  // ----- Columns -----------------------------------------------------------------------------

  /** The row of the address is the one the click or the switch is about. */
  predicate Concerns(rows: map<string, Row>, op: Op, email: string) {
    match op
    case DoConfirm(token, _) => email in rows && rows[email].token == token
    case DoUnsubscribe(token, _) => email in rows && rows[email].token == token
    case DoUnsubscribeByEmail(address, _) => email in rows && address == email
    case _ => false
  }

  /** A subscription starts the address over, unless it is subscribed already. */
  predicate Restarts(rows: map<string, Row>, op: Op, email: string) {
    op.DoSubscribe? && op.email == email
    && !(email in rows && rows[email].confirmedAt.Some? && rows[email].unsubscribedAt.None?)
  }

  /** Column by column, what a step does to the row of an address. */
  lemma ColumnsMove(rows: map<string, Row>, op: Op, email: string)
    ensures
      var after := Apply(rows, op);
      && (email in after <==> (email in rows || (op.DoSubscribe? && op.email == email)) && op != DoForget(email))
      && (email in after && Restarts(rows, op, email) ==> after[email] == Row(op.token, None, None))
      && (email in after && !Restarts(rows, op, email) ==>
            var was, row := rows[email], after[email];
            var clicked := op.DoConfirm? && Concerns(rows, op, email);
            var ended := (op.DoUnsubscribe? || op.DoUnsubscribeByEmail?) && Concerns(rows, op, email);
            && row.token == was.token
            && row.confirmedAt == (if clicked && was.confirmedAt.None? then Some(op.at) else was.confirmedAt)
            && row.unsubscribedAt == (if clicked then None
                                      else if ended && was.unsubscribedAt.None? then Some(op.at)
                                      else was.unsubscribedAt))
  {
  }

  /** What the settings screen is told. */
  lemma StatusSays(rows: map<string, Row>, email: string)
    ensures StatusOf(rows, email) == NotSubscribed <==> (email in rows ==> rows[email].unsubscribedAt != None)
    ensures StatusOf(rows, email) == AwaitingConfirmation <==>
              exists token :: email in rows && rows[email] == Row(token, None, None)
  {
    if email in rows && rows[email].unsubscribedAt == None && rows[email].confirmedAt == None {
      assert rows[email] == Row(rows[email].token, None, None);
    }
  }

  /** Step i put the address in, and its account has not gone since. */
  ghost predicate EnteredAt(ops: seq<Op>, i: nat, email: string) {
    && i < |ops| && ops[i].DoSubscribe? && ops[i].email == email
    && forall k | i < k < |ops| :: ops[k] != DoForget(email)
  }

  lemma EnteredSnoc(front: seq<Op>, op: Op, i: nat, email: string)
    requires i < |front|
    ensures EnteredAt(front + [op], i, email) <==> EnteredAt(front, i, email) && op != DoForget(email)
  {
    var ops := front + [op];
    assert ops[|front|] == op && forall k | 0 <= k < |front| :: ops[k] == front[k];
  }

  /** Over any run the table has exactly the addresses that subscribed and whose account did not go afterwards. */
  lemma {:induction false} KnownIff(ops: seq<Op>, email: string)
    ensures email in Run(ops) <==> exists i: nat :: EnteredAt(ops, i, email)
  {
    if ops != [] {
      var front, op := ops[..|ops| - 1], ops[|ops| - 1];
      assert ops == front + [op];
      KnownIff(front, email);
      ColumnsMove(Run(front), op, email);
      if i: nat :| EnteredAt(front, i, email) {
        EnteredSnoc(front, op, i, email);
      }
      if op.DoSubscribe? && op.email == email {
        assert EnteredAt(ops, |front|, email);
      }
      if i: nat :| EnteredAt(ops, i, email) {
        if i < |front| {
          EnteredSnoc(front, op, i, email);
        }
      }
    }
  }

  // ----- Tokens ------------------------------------------------------------------------------

  ghost predicate Has(rows: map<string, Row>, email: string, token: nat) {
    email in rows && rows[email].token == token
  }

  /** Every subscription attempt mails a token no other attempt mailed. */
  ghost predicate FreshTokens(ops: seq<Op>) {
    forall i, j | 0 <= i < j < |ops| && ops[i].DoSubscribe? && ops[j].DoSubscribe? :: ops[i].token != ops[j].token
  }

  ghost predicate IssuedAt(ops: seq<Op>, i: nat, email: string, token: nat) {
    i < |ops| && ops[i] == DoSubscribe(email, token)
  }

  ghost predicate Issued(ops: seq<Op>, email: string, token: nat) {
    exists i: nat :: IssuedAt(ops, i, email, token)
  }

  lemma IssuedSnoc(front: seq<Op>, op: Op, email: string, token: nat)
    ensures Issued(front, email, token) ==> Issued(front + [op], email, token)
    ensures op == DoSubscribe(email, token) ==> Issued(front + [op], email, token)
  {
    var ops := front + [op];
    assert ops[|front|] == op;
    if i: nat :| IssuedAt(front, i, email, token) {
      assert IssuedAt(ops, i, email, token);
    }
    if op == DoSubscribe(email, token) {
      assert IssuedAt(ops, |front|, email, token);
    }
  }

  /** Where a row's token can come from in one step. */
  lemma StepOrigins(rows: map<string, Row>, op: Op, email: string)
    requires email in Apply(rows, op)
    ensures
      var token := Apply(rows, op)[email].token;
      op == DoSubscribe(email, token) || Has(rows, email, token)
  {
  }

  lemma {:induction false} RowsHaveOrigins(ops: seq<Op>, email: string)
    requires email in Run(ops)
    ensures Issued(ops, email, Run(ops)[email].token)
  {
    var front, op := ops[..|ops| - 1], ops[|ops| - 1];
    assert ops == front + [op];
    StepOrigins(Run(front), op, email);
    if email in Run(front) {
      RowsHaveOrigins(front, email);
    }
    IssuedSnoc(front, op, email, Run(ops)[email].token);
  }

  /** A way out: either link of the token, the switch in the settings, or the account going. */
  predicate Ends(op: Op, email: string, token: nat) {
    || (op.DoUnsubscribe? && op.token == token)
    || (op.DoUnsubscribeByEmail? && op.email == email)
    || (op.DoForget? && op.email == email)
  }

  ghost predicate NoEndAfter(ops: seq<Op>, j: nat, email: string, token: nat) {
    forall k | j < k < |ops| :: !Ends(ops[k], email, token)
  }

  /** Step j is a click on the link of the address's token of that time, and no way out was taken since. */
  ghost predicate ClickStands(ops: seq<Op>, j: nat, email: string, token: nat) {
    && j < |ops| && ops[j].DoConfirm? && ops[j].token == token
    && Has(Run(ops[..j]), email, token)
    && NoEndAfter(ops, j, email, token)
  }

  lemma ClickStandsSnoc(front: seq<Op>, op: Op, j: nat, email: string, token: nat)
    requires j < |front|
    ensures ClickStands(front + [op], j, email, token) <==> ClickStands(front, j, email, token) && !Ends(op, email, token)
  {
    var ops := front + [op];
    assert ops[..j] == front[..j] && ops[j] == front[j] && ops[|front|] == op;
    if NoEndAfter(ops, j, email, token) {
      assert forall k | j < k < |front| :: front[k] == ops[k] && !Ends(ops[k], email, token);
    }
  }

  /** One step leaves an address live on a token by a click on it, or by being live on it and not ended. */
  lemma LiveStep(rows: map<string, Row>, op: Op, email: string, token: nat)
    ensures
      var after := Apply(rows, op);
      Has(after, email, token) && LiveRecipient(after[email]) <==>
        Has(rows, email, token)
        && ((op.DoConfirm? && op.token == token) || (LiveRecipient(rows[email]) && !Ends(op, email, token)))
  {
  }

  /** An address is subscribed exactly when a click on its token of that time has not been taken back since. */
  lemma {:induction false} SubscribedIff(ops: seq<Op>, email: string, token: nat)
    ensures Has(Run(ops), email, token) && StatusOf(Run(ops), email) == Subscribed <==>
              exists j: nat :: ClickStands(ops, j, email, token)
  {
    if ops != [] {
      var front, op := ops[..|ops| - 1], ops[|ops| - 1];
      assert ops == front + [op];
      SubscribedIff(front, email, token);
      LiveStep(Run(front), op, email, token);
      if j: nat :| ClickStands(front, j, email, token) {
        ClickStandsSnoc(front, op, j, email, token);
      }
      if Has(Run(front), email, token) && op.DoConfirm? && op.token == token {
        assert ClickStands(ops, |front|, email, token);
      }
      if j: nat :| ClickStands(ops, j, email, token) {
        if j < |front| {
          ClickStandsSnoc(front, op, j, email, token);
        }
      }
    }
  }

  /** Nobody is subscribed whose token was not mailed to them, then clicked, and then left standing. */
  lemma SubscribedMeansConfirmed(ops: seq<Op>, email: string)
    requires StatusOf(Run(ops), email) == Subscribed
    ensures
      var token := Run(ops)[email].token;
      exists i: nat, j: nat ::
        && IssuedAt(ops, i, email, token)
        && i < j < |ops| && ops[j].DoConfirm? && ops[j].token == token
        && NoEndAfter(ops, j, email, token)
  {
    var token := Run(ops)[email].token;
    SubscribedIff(ops, email, token);
    var j: nat :| ClickStands(ops, j, email, token);
    RowsHaveOrigins(ops[..j], email);
    var i: nat :| IssuedAt(ops[..j], i, email, token);
    assert IssuedAt(ops, i, email, token);
  }

  /** No two addresses ever share a token: the unique index has nothing to refuse. */
  lemma TokensAreDistinct(ops: seq<Op>, a: string, b: string)
    requires FreshTokens(ops) && a in Run(ops) && b in Run(ops) && a != b
    ensures Run(ops)[a].token != Run(ops)[b].token
  {
    RowsHaveOrigins(ops, a);
    RowsHaveOrigins(ops, b);
    var i: nat :| IssuedAt(ops, i, a, Run(ops)[a].token);
    var j: nat :| IssuedAt(ops, j, b, Run(ops)[b].token);
    assert ops[i] != ops[j];
  }

  /** A token enters the table only by the subscription that mails it. */
  lemma MatchNeedsIssue(rows: map<string, Row>, op: Op, token: nat)
    requires Matches(Apply(rows, op), token) && !Matches(rows, token)
    ensures op.DoSubscribe? && op.token == token
  {
    var e :| e in Apply(rows, op) && Apply(rows, op)[e].token == token;
    StepOrigins(rows, op, e);
  }

  lemma {:induction false} MatchedWasIssued(ops: seq<Op>, token: nat) returns (i: nat)
    requires Matches(Run(ops), token)
    ensures i < |ops| && ops[i].DoSubscribe? && ops[i].token == token
  {
    var front, op := ops[..|ops| - 1], ops[|ops| - 1];
    if Matches(Run(front), token) {
      i := MatchedWasIssued(front, token);
    } else {
      MatchNeedsIssue(Run(front), op, token);
      i := |front|;
    }
  }

  /** Once replaced or forgotten, a token never matches a row again. */
  lemma {:induction false} SupersededForGood(ops: seq<Op>, k: nat, m: nat, token: nat)
    requires FreshTokens(ops) && k <= m <= |ops|
    requires Matches(Run(ops[..k]), token) && !Matches(Run(ops[..m]), token)
    ensures !Matches(Run(ops), token)
    decreases |ops| - m
  {
    if m < |ops| {
      var i := MatchedWasIssued(ops[..k], token);
      assert ops[..m + 1][..m] == ops[..m];
      if Matches(Run(ops[..m + 1]), token) {
        MatchNeedsIssue(Run(ops[..m]), ops[m], token);
      } else {
        SupersededForGood(ops, k, m + 1, token);
      }
    } else {
      assert ops[..m] == ops;
    }
  }

  /** Confirmation is asked for exactly when the mailed token is the stored one; otherwise nothing changed. */
  lemma AsksWhenStored(rows: map<string, Row>, email: string, token: nat)
    requires !Matches(rows, token)
    ensures
      var after := AfterSubscribe(rows, email, token);
      && email in after
      && (StatusOf(after, email) == AwaitingConfirmation <==> after[email].token == token)
      && (StatusOf(after, email) != AwaitingConfirmation ==> after == rows)
      && (forall e | e != email :: (e in after <==> e in rows) && (e in rows ==> after[e] == rows[e]))
  {
  }

  /** Confirming twice, and unsubscribing twice, change nothing the second time. */
  lemma RepeatedClicks(rows: map<string, Row>, token: nat, at: int, later: int)
    ensures AfterConfirm(AfterConfirm(rows, token, at), token, later) == AfterConfirm(rows, token, at)
    ensures AfterUnsubscribe(AfterUnsubscribe(rows, token, at), token, later) == AfterUnsubscribe(rows, token, at)
  {
  }
}
