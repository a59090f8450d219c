/** The hosted store as two in-memory tables keyed by id. The store client's
    calls become the methods below; each insert may fail, which the caller
    states with a `fails` flag (the store's own reasons for failing, such as
    the network, are not modelled). */
module Store {
  import opened Wrappers
  import opened Records

  /** The ids of the users whose email equals `email` (the rows of
      `.from('users').eq('email', email)`). */
  function UsersWithEmail(users: map<Id, User>, email: string): set<Id>
  {
    set id | id in users && users[id].email == email
  }

  /** No two users share an email. */
  predicate EmailsUnique(users: map<Id, User>)
  {
    forall a, b :: a in users && b in users && users[a].email == users[b].email ==> a == b
  }

  /** Every user belongs to a company that exists. */
  predicate UsersHaveCompanies(users: map<Id, User>, companies: map<Id, Company>)
  {
    forall id :: id in users ==> users[id].companyId in companies
  }

  /** `.single()` on an email filter: the store returns a row only when
      exactly one row matches, and no data otherwise (none or several). */
  function SingleUser(users: map<Id, User>, email: string): (r: Option<Id>)
    ensures r.Some? <==> |UsersWithEmail(users, email)| == 1
    ensures r.Some? ==> UsersWithEmail(users, email) == {r.value}
  {
    var ids := UsersWithEmail(users, email);
    if |ids| == 1 then
      SingletonElement(ids);
      var id :| id in ids; Some(id)
    else
      None
  }

  /** A set of one element is the singleton of each of its elements. */
  lemma SingletonElement<T>(s: set<T>)
    requires |s| == 1
    ensures forall x :: x in s ==> s == {x}
  {
    var x :| x in s;
    assert |s - {x}| == 0;
    assert s == {x};
  }

  /** Under email uniqueness `.single()` finds a user exactly when some user
      has the email, so the register pre-check sees every registered email. */
  lemma {:induction false} SingleFindsUnique(users: map<Id, User>, email: string)
    requires EmailsUnique(users)
    ensures SingleUser(users, email).Some? <==> exists id :: id in users && users[id].email == email
  {
    var ids := UsersWithEmail(users, email);
    if id :| id in users && users[id].email == email {
      assert ids == {id};
    }
  }

  /** The two tables, and the counter from which the store draws fresh ids. */
  class Db {
    var companies: map<Id, Company>
    var users: map<Id, User>
    var nextId: Id

    /** Every row is stored under its own id, and every id in use is below
        `nextId`. */
    ghost predicate Valid()
      reads this
    {
      && (forall id :: id in companies ==> companies[id].id == id && id < nextId)
      && (forall id :: id in users ==> users[id].id == id && id < nextId)
    }

    constructor ()
      ensures Valid() && companies == map[] && users == map[]
    {
      companies, users, nextId := map[], map[], 0;
    }

    /** `.from('companies').insert(row).select().single()`: on success the row
        is stored under a fresh id, which the returned row carries. */
    method InsertCompany(row: Company, fails: bool) returns (inserted: Option<Company>)
      requires Valid()
      modifies this
      ensures Valid() && users == old(users)
      ensures fails ==> inserted == None && unchanged(this)
      ensures !fails ==> && old(nextId) !in old(companies)
                         && inserted == Some(row.(id := old(nextId)))
                         && companies == old(companies)[old(nextId) := row.(id := old(nextId))]
                         && nextId == old(nextId) + 1
    {
      if fails {
        return None;
      }
      var stored := row.(id := nextId);
      companies := companies[nextId := stored];
      nextId := nextId + 1;
      inserted := Some(stored);
    }

    /** `.from('users').insert(row).select().single()`. */
    method InsertUser(row: User, fails: bool) returns (inserted: Option<User>)
      requires Valid()
      modifies this
      ensures Valid() && companies == old(companies)
      ensures fails ==> inserted == None && unchanged(this)
      ensures !fails ==> && old(nextId) !in old(users)
                         && inserted == Some(row.(id := old(nextId)))
                         && users == old(users)[old(nextId) := row.(id := old(nextId))]
                         && nextId == old(nextId) + 1
    {
      if fails {
        return None;
      }
      var stored := row.(id := nextId);
      users := users[nextId := stored];
      nextId := nextId + 1;
      inserted := Some(stored);
    }

    /** `.from('companies').delete().eq('id', id)`. */
    method DeleteCompany(id: Id)
      requires Valid()
      modifies this
      ensures Valid() && users == old(users) && nextId == old(nextId)
      ensures companies == old(companies) - {id}
    {
      companies := companies - {id};
    }
  }
}
