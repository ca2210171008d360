/** The one-time code table: issue, lookup and purge. Consuming a code inside an operation is Tables.Consume. */
module Mfa {
  import opened Basics
  import opened Tables

  /** The code a lookup for this user and operation may return. */
  predicate Active(codes: CodeTable, id: int, user: int, operation: string, now: int) {
    Usable(codes, id, now) && codes.rows[id].user == user && codes.rows[id].operation == operation
  }

  /** FindActiveCode returns such a code: ORDER BY created_at DESC LIMIT 1. */
  ghost predicate Found(codes: CodeTable, id: int, user: int, operation: string, now: int) {
    && Active(codes, id, user, operation, now)
    && forall other :: Active(codes, other, user, operation, now) ==>
      codes.rows[other].created <= codes.rows[id].created
  }

  /** The codes the UPDATE of SaveCode matches. */
  function ActiveIds(codes: CodeTable, user: int, operation: string, now: int): set<int> {
    set id | id in codes.rows && Active(codes, id, user, operation, now)
  }

  /** The effect of SaveCode's two statements: those codes are spent, and the new one gets the next id. */
  function Replace(codes: CodeTable, spends: set<int>, code: Code): CodeTable {
    var spent := map id | id in codes.rows :: if id in spends then codes.rows[id].(used := true) else codes.rows[id];
    CodeTable(spent[codes.next := code], codes.next + 1)
  }

  /** SaveCode with nothing in between. */
  function SaveCode(
      codes: CodeTable, user: int, operation: string, secret: string, now: int, expires: int): CodeTable {
    Replace(codes, ActiveIds(codes, user, operation, now), Code(user, operation, secret, now, expires, false))
  }

  /** DeleteExpired. */
  function Purge(codes: CodeTable, now: int): CodeTable {
    codes.(rows := map id | id in codes.rows && !codes.rows[id].used && now < codes.rows[id].expires :: codes.rows[id])
  }

  /** The table, updated in place. */
  class CodeStore {
    var rows: map<int, Code>
    var next: int

    ghost function Contents(): CodeTable
      reads this
    {
      CodeTable(rows, next)
    }

    constructor ()
      ensures Contents() == EMPTY.codes
    {
      rows, next := map[], 1;
    }

    method Save(user: int, operation: string, secret: string, now: int, expires: int) returns (id: int)
      modifies this
      ensures id == old(next) && next == id + 1
      ensures id in rows && rows[id] == Code(user, operation, secret, now, expires, false)
      ensures Contents() == SaveCode(old(Contents()), user, operation, secret, now, expires)
    {
      var spent := map k | k in rows ::
        if !rows[k].used && now < rows[k].expires && rows[k].user == user && rows[k].operation == operation
        then rows[k].(used := true) else rows[k];
      assert (map k | k in rows ::
                if k in ActiveIds(Contents(), user, operation, now) then rows[k].(used := true) else rows[k]) == spent;
      rows := spent[next := Code(user, operation, secret, now, expires, false)];
      id := next;
      next := next + 1;
    }

    /** MarkUsed and markMFACodeUsedTx; false stands for ErrMFACodeNotFound. */
    method MarkUsed(id: int, now: int) returns (marked: bool)
      modifies this
      ensures marked <==> id in old(rows) && !old(rows)[id].used && now < old(rows)[id].expires
      ensures marked <==> Consume(old(Contents()), Some(id), now).Some?
      ensures Contents() == if marked then Consume(old(Contents()), Some(id), now).value else old(Contents())
    {
      marked := id in rows && !rows[id].used && now < rows[id].expires;
      if marked {
        rows := rows[id := rows[id].(used := true)];
      }
    }

    method DeleteExpired(now: int) returns (deleted: int)
      modifies this
      ensures forall id :: id in rows <==> id in old(rows) && !old(rows)[id].used && now < old(rows)[id].expires
      ensures forall id :: id in rows ==> rows[id] == old(rows)[id]
      ensures Contents() == Purge(old(Contents()), now)
      ensures deleted == |old(rows)| - |rows|
    {
      var kept := map id | id in rows && !rows[id].used && now < rows[id].expires :: rows[id];
      deleted := |rows| - |kept|;
      rows := kept;
    }
  }

  /** After a purge a lookup or a consumption at any time answers as before, except for codes that expired by the
      purge. */
  lemma PurgeAnswers(codes: CodeTable, id: int, user: int, operation: string, now: int, t: int)
    ensures Active(Purge(codes, now), id, user, operation, t)
       <==> Active(codes, id, user, operation, t) && now < codes.rows[id].expires
    ensures now <= t ==> (Usable(Purge(codes, now), id, t) <==> Usable(codes, id, t))
  {
  }

  /** A saved code is the only usable one of its user and operation until it expires; codes of others are untouched, and
      ids are not given out twice. */
  lemma SavedCodeStandsAlone(
      codes: CodeTable, user: int, operation: string, secret: string, now: int, expires: int, id: int, t: int)
    requires forall k :: k in codes.rows ==> k < codes.next
    ensures var after := SaveCode(codes, user, operation, secret, now, expires);
            && after.next == codes.next + 1
            && after.rows.Keys == codes.rows.Keys + {codes.next}
            && after.rows[codes.next] == Code(user, operation, secret, now, expires, false)
            && (now <= t < expires ==> (Active(after, id, user, operation, t) <==> id == codes.next))
            && (id in codes.rows ==>
                  after.rows[id] == if Active(codes, id, user, operation, now) then codes.rows[id].(used := true)
                                    else codes.rows[id])
  {
  }
}
