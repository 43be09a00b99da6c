/** The catalog of calendars (src/storage/calendar_catalog.cpp, calendar_schema_entry.cpp): mounting
    them as tables at ATTACH, and creating and dropping them during the session. */
module Catalog {
  import opened Wrappers
  import opened Paging

  function LowerChar(c: char): char {
    if 'A' <= c <= 'Z' then (c as int + 32) as char else c
  }

  /** Names and ids are compared up to the case of ASCII letters. */
  function Lower(s: string): string {
    seq(|s|, i requires 0 <= i < |s| => LowerChar(s[i]))
  }

  predicate SameLetter(c: char, d: char) {
    || c == d
    || ('A' <= c <= 'Z' && d as int == c as int + 32)
    || ('A' <= d <= 'Z' && c as int == d as int + 32)
  }

  /** Equal length, and equal letter by letter up to case. */
  predicate EqualUpToCase(a: string, b: string) {
    |a| == |b| && forall i :: 0 <= i < |a| ==> SameLetter(a[i], b[i])
  }

  /** Keys agree exactly when names are equal up to case. */
  lemma LowerIgnoresCase(a: string, b: string)
    ensures Lower(a) == Lower(b) <==> EqualUpToCase(a, b)
  {
    if Lower(a) == Lower(b) {
      assert |a| == |Lower(a)| == |Lower(b)| == |b|;
      forall i | 0 <= i < |a| ensures SameLetter(a[i], b[i]) {
        assert Lower(a)[i] == Lower(b)[i];
      }
    }
  }

  datatype Table = Table(name: string, calendarId: string)

  /** A case-insensitive map, kept by lower-case name. */
  type Tables = map<string, Table>

  function WithTable(tables: Tables, table: Table): Tables {
    tables[Lower(table.name) := table]
  }

  // ---------- mounting ----------

  /** calendar_aliases: the name to mount under, and the calendar id it stands for. */
  datatype Alias = Alias(name: string, calendarId: string)

  /** The aliases of a calendar. */
  function NamesFor(aliases: seq<Alias>, id: string): seq<string> {
    if aliases == [] then []
    else (if Lower(aliases[0].calendarId) == Lower(id) then [aliases[0].name] else []) + NamesFor(aliases[1..], id)
  }

  /** What a listed calendar is mounted under: its aliases, or its id if it has none. */
  function MountNames(aliases: seq<Alias>, id: string): seq<string> {
    if NamesFor(aliases, id) == [] then [id] else NamesFor(aliases, id)
  }

  function TablesNamed(names: seq<string>, id: string): seq<Table> {
    seq(|names|, i requires 0 <= i < |names| => Table(names[i], id))
  }

  function Mounts(aliases: seq<Alias>, ids: seq<string>): seq<Table> {
    if ids == [] then [] else TablesNamed(MountNames(aliases, ids[0]), ids[0]) + Mounts(aliases, ids[1..])
  }

  function Registered(tables: Tables, mounts: seq<Table>): Tables
    decreases mounts
  {
    if mounts == [] then tables else Registered(WithTable(tables, mounts[0]), mounts[1..])
  }

  function LowerIds(ids: seq<string>): set<string> {
    set id | id in ids :: Lower(id)
  }

  predicate ListedId(ids: seq<string>, id: string) {
    Lower(id) in LowerIds(ids)
  }

  lemma LowerIdsSplit(a: seq<string>, b: seq<string>)
    ensures LowerIds(a + b) == LowerIds(a) + LowerIds(b)
  {
  }

  predicate AllAliasesListed(aliases: seq<Alias>, ids: seq<string>) {
    forall i :: 0 <= i < |aliases| ==> ListedId(ids, aliases[i].calendarId)
  }

  /** Every alias is listed exactly if some listed calendar has its id, up to case. */
  lemma AliasesListedExactly(aliases: seq<Alias>, ids: seq<string>)
    ensures AllAliasesListed(aliases, ids)
       <==> forall alias <- aliases :: exists id <- ids :: EqualUpToCase(alias.calendarId, id)
  {
    forall alias, id | alias in aliases && id in ids
      ensures Lower(alias.calendarId) == Lower(id) <==> EqualUpToCase(alias.calendarId, id)
    {
      LowerIgnoresCase(alias.calendarId, id);
    }
    if AllAliasesListed(aliases, ids) {
      forall alias | alias in aliases ensures exists id <- ids :: EqualUpToCase(alias.calendarId, id) {
        assert ListedId(ids, alias.calendarId);
      }
    }
  }

  lemma {:induction false} RegisteredSplit(tables: Tables, a: seq<Table>, b: seq<Table>)
    ensures Registered(tables, a + b) == Registered(Registered(tables, a), b)
    decreases a
  {
    if a == [] {
      assert a + b == b;
    } else {
      assert (a + b)[1..] == a[1..] + b;
      RegisteredSplit(WithTable(tables, a[0]), a[1..], b);
    }
  }

  lemma {:induction false} MountsSplit(aliases: seq<Alias>, a: seq<string>, b: seq<string>)
    ensures Mounts(aliases, a + b) == Mounts(aliases, a) + Mounts(aliases, b)
    decreases a
  {
    if a == [] {
      assert a + b == b;
    } else {
      assert (a + b)[1..] == a[1..] + b;
      MountsSplit(aliases, a[1..], b);
    }
  }

  /** The tables and the ids seen after mounting these calendars on top of a base. */
  ghost predicate Loaded(aliases: seq<Alias>, base: Tables, tables: Tables, seenIds: set<string>, ids: seq<string>) {
    tables == Registered(base, Mounts(aliases, ids)) && seenIds == LowerIds(ids)
  }

  lemma LoadedMore(aliases: seq<Alias>, base: Tables, tables: Tables, seenIds: set<string>, ids: seq<string>,
                   items: seq<string>)
    requires Loaded(aliases, base, tables, seenIds, ids)
    ensures Loaded(aliases, base, Registered(tables, Mounts(aliases, items)), seenIds + LowerIds(items), ids + items)
  {
    LowerIdsSplit(ids, items);
    MountsSplit(aliases, ids, items);
    RegisteredSplit(base, Mounts(aliases, ids), Mounts(aliases, items));
  }

  lemma MountsOfOne(aliases: seq<Alias>, id: string)
    ensures Mounts(aliases, [id]) == TablesNamed(MountNames(aliases, id), id)
  {
    var named := TablesNamed(MountNames(aliases, id), id);
    assert [id][1..] == [] && named + [] == named;
  }

  lemma LowerIdsOfOne(id: string)
    ensures LowerIds([id]) == {Lower(id)}
  {
    assert id in [id];
  }

  lemma LoadedNext(aliases: seq<Alias>, base: Tables, tables: Tables, seenIds: set<string>, items: seq<string>, i: nat)
    requires i < |items| && Loaded(aliases, base, tables, seenIds, items[..i])
    ensures Loaded(aliases, base, Registered(tables, TablesNamed(MountNames(aliases, items[i]), items[i])),
                   seenIds + {Lower(items[i])}, items[..i + 1])
  {
    LoadedMore(aliases, base, tables, seenIds, items[..i], [items[i]]);
    MountsOfOne(aliases, items[i]);
    LowerIdsOfOne(items[i]);
    assert items[..i + 1] == items[..i] + [items[i]];
  }

  lemma RegisteredNext(tables: Tables, mounts: seq<Table>, k: nat)
    requires k < |mounts|
    ensures Registered(tables, mounts[..k + 1]) == WithTable(Registered(tables, mounts[..k]), mounts[k])
  {
    assert mounts[..k + 1] == mounts[..k] + [mounts[k]];
    RegisteredSplit(tables, mounts[..k], [mounts[k]]);
    assert [mounts[k]][1..] == [];
  }

  /** The listing holds the ids done and, unless the last page is done, those from this token on. */
  ghost predicate Underway(listing: Listing<string>, all: seq<string>, done: seq<string>, last: bool, token: string,
                           left: nat) {
    if last then all == done
    else Chained(listing, token, left) && all == done + ItemsFrom(listing, token, left)
  }

  lemma PageDone(listing: Listing<string>, all: seq<string>, done: seq<string>, token: string, left: nat)
    requires Underway(listing, all, done, false, token, left)
    ensures token in listing
    ensures var page := listing[token];
            var last := page.nextToken == "";
            && (!last ==> left > 0)
            && Underway(listing, all, done + PageItems(page), last, page.nextToken, if last then left else left - 1)
  {
  }

  // ---------- what is mounted ----------

  /** The name is one the calendar should be mounted under: that of an alias of it or, if it has none,
      its own id. */
  ghost predicate MountedUnder(aliases: seq<Alias>, id: string, name: string) {
    if exists alias <- aliases :: Lower(alias.calendarId) == Lower(id)
    then exists alias <- aliases :: Lower(alias.calendarId) == Lower(id) && Lower(alias.name) == Lower(name)
    else Lower(id) == Lower(name)
  }

  /** Tables of one name, up to case, stand for one calendar. */
  ghost predicate NoCollision(mounts: seq<Table>) {
    forall i, j :: 0 <= i < |mounts| && 0 <= j < |mounts| && Lower(mounts[i].name) == Lower(mounts[j].name) ==>
                     mounts[i].calendarId == mounts[j].calendarId
  }

  ghost predicate HasAlias(aliases: seq<Alias>, id: string, name: string) {
    exists alias <- aliases :: Lower(alias.calendarId) == Lower(id) && alias.name == name
  }

  lemma {:induction false} NamesForMember(aliases: seq<Alias>, id: string, name: string)
    ensures name in NamesFor(aliases, id) <==> HasAlias(aliases, id, name)
  {
    if aliases == [] {
    } else {
      NamesForMember(aliases[1..], id, name);
      assert aliases == [aliases[0]] + aliases[1..];
      assert HasAlias(aliases, id, name)
        <==> (Lower(aliases[0].calendarId) == Lower(id) && aliases[0].name == name) || HasAlias(aliases[1..], id, name);
    }
  }

  lemma MountNamesMembers(aliases: seq<Alias>, id: string, name: string)
    ensures MountedUnder(aliases, id, name)
       <==> exists mounted <- MountNames(aliases, id) :: Lower(mounted) == Lower(name)
  {
    forall n ensures n in NamesFor(aliases, id) <==> HasAlias(aliases, id, n) {
      NamesForMember(aliases, id, n);
    }
    var names := NamesFor(aliases, id);
    assert names != [] ==> names[0] in names && HasAlias(aliases, id, names[0]);
    if alias :| alias in aliases && Lower(alias.calendarId) == Lower(id) {
      assert HasAlias(aliases, id, alias.name);
      assert names != [];
      forall other | other in aliases && Lower(other.calendarId) == Lower(id) ensures other.name in names {
        assert HasAlias(aliases, id, other.name);
      }
    }
  }

  lemma {:induction false} MountsMembers(aliases: seq<Alias>, ids: seq<string>, id: string, name: string)
    ensures (exists table <- Mounts(aliases, ids) :: table.calendarId == id && Lower(table.name) == Lower(name))
       <==> id in ids && MountedUnder(aliases, id, name)
  {
    if ids == [] {
    } else {
      MountsMembers(aliases, ids[1..], id, name);
      MountNamesMembers(aliases, ids[0], name);
      var first := TablesNamed(MountNames(aliases, ids[0]), ids[0]);
      var names := MountNames(aliases, ids[0]);
      assert forall i :: 0 <= i < |names| ==> first[i] == Table(names[i], ids[0]);
      if ids[0] == id && MountedUnder(aliases, id, name) {
        var i :| 0 <= i < |names| && Lower(names[i]) == Lower(name);
        assert first[i] in Mounts(aliases, ids);
      }
      assert forall table :: table in Mounts(aliases, ids) <==> table in first || table in Mounts(aliases, ids[1..]);
      assert forall table :: table in first ==> table.calendarId == ids[0] && table.name in names;
    }
  }

  ghost predicate Claimed(mounts: seq<Table>, name: string) {
    exists table <- mounts :: Lower(table.name) == name
  }

  lemma {:induction false} RegisteredLast(tables: Tables, mounts: seq<Table>, name: string)
    ensures var after := Registered(tables, mounts);
            if Claimed(mounts, name) then name in after && after[name] in mounts && Lower(after[name].name) == name
            else (name in after <==> name in tables) && (name in after ==> after[name] == tables[name])
    decreases mounts
  {
    if mounts == [] {
    } else {
      RegisteredLast(WithTable(tables, mounts[0]), mounts[1..], name);
      assert mounts == [mounts[0]] + mounts[1..];
      assert Claimed(mounts, name) <==> Lower(mounts[0].name) == name || Claimed(mounts[1..], name);
    }
  }

  /** Of the tables that claim one name, up to case, the last stands. */
  lemma {:induction false} LastClaimStands(tables: Tables, mounts: seq<Table>, i: nat)
    requires i < |mounts|
    requires forall j :: i < j < |mounts| ==> Lower(mounts[j].name) != Lower(mounts[i].name)
    ensures Lower(mounts[i].name) in Registered(tables, mounts)
    ensures Registered(tables, mounts)[Lower(mounts[i].name)] == mounts[i]
    decreases mounts
  {
    var rest := mounts[1..];
    if i == 0 {
      RegisteredLast(WithTable(tables, mounts[0]), rest, Lower(mounts[0].name));
      assert forall table :: table in rest ==> Lower(table.name) != Lower(mounts[0].name);
    } else {
      assert rest[i - 1] == mounts[i];
      LastClaimStands(WithTable(tables, mounts[0]), rest, i - 1);
    }
  }

  /** The mounted tables: under a name stands a calendar exactly if that calendar is listed and the name
      is one of its aliases or, without any, its id; provided no two calendars claim one name. */
  lemma MountingInvertsAliases(aliases: seq<Alias>, ids: seq<string>, name: string, id: string)
    requires NoCollision(Mounts(aliases, ids))
    ensures var tables := Registered(map[], Mounts(aliases, ids));
            (Lower(name) in tables && tables[Lower(name)].calendarId == id)
            <==> (id in ids && MountedUnder(aliases, id, name))
  {
    var mounts := Mounts(aliases, ids);
    RegisteredLast(map[], mounts, Lower(name));
    MountsMembers(aliases, ids, id, name);
    var tables := Registered(map[], mounts);
    if Lower(name) in tables {
      assert tables[Lower(name)] in mounts && Lower(tables[Lower(name)].name) == Lower(name);
    }
    if id in ids && MountedUnder(aliases, id, name) {
      var table :| table in mounts && table.calendarId == id && Lower(table.name) == Lower(name);
      assert tables[Lower(name)].calendarId == id;
    }
  }

  predicate StandsIn(table: Table, tables: Tables) {
    Lower(table.name) in tables && tables[Lower(table.name)].calendarId == table.calendarId
  }

  /** Every mount stands, reachable under its name, exactly if no two calendars claim one name. */
  lemma MountsStand(aliases: seq<Alias>, ids: seq<string>)
    ensures var mounts := Mounts(aliases, ids);
            (forall table <- mounts :: StandsIn(table, Registered(map[], mounts))) <==> NoCollision(mounts)
  {
    var mounts := Mounts(aliases, ids);
    forall table | table in mounts
      ensures var tables := Registered(map[], mounts);
              Lower(table.name) in tables && tables[Lower(table.name)] in mounts
              && Lower(tables[Lower(table.name)].name) == Lower(table.name)
    {
      RegisteredLast(map[], mounts, Lower(table.name));
    }
    if forall table <- mounts :: StandsIn(table, Registered(map[], mounts)) {
      forall i, j | 0 <= i < |mounts| && 0 <= j < |mounts| && Lower(mounts[i].name) == Lower(mounts[j].name)
        ensures mounts[i].calendarId == mounts[j].calendarId
      {
        assert mounts[i] in mounts && mounts[j] in mounts;
      }
    }
  }

  /** Two calendars do claim one name where an alias of the first is the id of the second; then the first,
      mounted under nothing else, cannot be reached. */
  lemma CollisionHappens(a: string, b: string)
    requires Lower(a) != Lower(b)
    ensures var mounts := Mounts([Alias(b, a)], [a, b]);
            var tables := Registered(map[], mounts);
            && mounts == [Table(b, a), Table(b, b)] && !NoCollision(mounts)
            && Lower(b) in tables && tables[Lower(b)] == Table(b, b) && Lower(a) !in tables
  {
    var aliases, mounts := [Alias(b, a)], [Table(b, a), Table(b, b)];
    assert NamesFor(aliases, a) == [b] by {
      assert aliases[1..] == [] && [b] + [] == [b];
    }
    assert NamesFor(aliases, b) == [] by {
      assert aliases[1..] == [];
    }
    assert [a, b][1..] == [b] && [a, b] == [a] + [b];
    MountsOfOne(aliases, a);
    MountsOfOne(aliases, b);
    MountsSplit(aliases, [a], [b]);
    assert Mounts(aliases, [a, b]) == mounts;
    assert mounts[0].calendarId != mounts[1].calendarId;
    LastClaimStands(map[], mounts, 1);
    RegisteredLast(map[], mounts, Lower(a));
  }

  // ---------- the session ----------

  /** The calendars on the server, every id it has ever used in lower case, the mounted tables, and the
      ids (in lower case) this session has created and not dropped. */
  datatype Session = Session(remote: set<string>, used: set<string>, tables: Tables, created: set<string>)

  /** CREATE TABLE AS: the POST may have made several calendars, being retried; answered normally, the
      last of them is the one it reports. */
  datatype Op =
    | CreateTableAs(name: string, made: seq<string>, answered: bool)
    | DropTable(name: string, isTable: bool, ifExists: bool, carriedOut: bool, answered: bool)
    | LookupTable(name: string)

  datatype DropResult = Dropped | Ignored | NotATable | NotFound | RefusedForeign | RemoteFailed

  function DropVerdict(session: Session, op: Op): DropResult
    requires op.DropTable?
  {
    if !op.isTable then NotATable
    else if Lower(op.name) !in session.tables then if op.ifExists then Ignored else NotFound
    else if Lower(session.tables[Lower(op.name)].calendarId) !in session.created then RefusedForeign
    else if !op.answered then RemoteFailed
    else Dropped
  }

  function AfterCreate(session: Session, name: string, made: seq<string>, answered: bool): Session {
    var extended := session.(remote := session.remote + (set id | id in made),
                    used := session.used + (set id | id in made :: Lower(id)));
    if !answered || made == [] then extended
    else
      var id := made[|made| - 1];
      extended.(tables := WithTable(session.tables, Table(name, id)), created := session.created + {Lower(id)})
  }

  function AfterDrop(session: Session, op: Op): Session
    requires op.DropTable?
  {
    var verdict := DropVerdict(session, op);
    if verdict != Dropped && verdict != RemoteFailed then session
    else
      var id := session.tables[Lower(op.name)].calendarId;
      if verdict == RemoteFailed then
        if op.carriedOut then session.(remote := session.remote - {id}) else session
      else
        session.(remote := session.remote - {id}, tables := session.tables - {Lower(op.name)},
        created := session.created - {Lower(id)})
  }

  function AfterOp(session: Session, op: Op): Session {
    match op
    case CreateTableAs(name, made, answered) => AfterCreate(session, name, made, answered)
    case DropTable(_, _, _, _, _) => AfterDrop(session, op)
    case LookupTable(_) => session
  }

  function AfterOps(session: Session, ops: seq<Op>): Session
    decreases ops
  {
    if ops == [] then session else AfterOps(AfterOp(session, ops[0]), ops[1..])
  }

  /** The server gives new calendars ids that are new up to case. */
  ghost predicate FreshIds(session: Session, op: Op) {
    op.CreateTableAs? ==>
      && (forall i :: 0 <= i < |op.made| ==> Lower(op.made[i]) !in session.used)
      && (forall i, j :: 0 <= i < j < |op.made| ==> Lower(op.made[i]) != Lower(op.made[j]))
  }

  ghost predicate FreshRun(session: Session, ops: seq<Op>)
    decreases ops
  {
    ops == [] || (FreshIds(session, ops[0]) && FreshRun(AfterOp(session, ops[0]), ops[1..]))
  }

  /** The id a CREATE TABLE AS reports. */
  function Reported(op: Op): set<string> {
    if op.CreateTableAs? && op.answered && op.made != [] then {op.made[|op.made| - 1]} else {}
  }

  function ReportedBy(ops: seq<Op>): set<string> {
    if ops == [] then {} else Reported(ops[0]) + ReportedBy(ops[1..])
  }

  function MadeBy(op: Op): set<string> {
    if op.CreateTableAs? then set id | id in op.made else {}
  }

  function MadeByAll(ops: seq<Op>): set<string> {
    if ops == [] then {} else MadeBy(ops[0]) + MadeByAll(ops[1..])
  }

  /** Every id in sight is a used one, and a table whose id counts as created has an id this session
      was given. */
  ghost predicate Sound(session: Session, mine: set<string>) {
    && (forall id :: id in session.remote ==> Lower(id) in session.used)
    && (forall id :: id in session.created ==> id in session.used)
    && (forall name :: name in session.tables ==> Lower(session.tables[name].calendarId) in session.used)
    && (forall name :: name in session.tables && Lower(session.tables[name].calendarId) in session.created ==>
                         session.tables[name].calendarId in mine)
  }

  lemma OpKeepsSound(session: Session, op: Op, mine: set<string>)
    requires Sound(session, mine) && FreshIds(session, op)
    ensures Sound(AfterOp(session, op), mine + Reported(op))
    ensures forall id :: id in session.remote + MadeBy(op) && id !in AfterOp(session, op).remote ==> id in mine
  {
    if op.CreateTableAs? {
      forall id | id in op.made ensures Lower(id) in AfterOp(session, op).used && Lower(id) !in session.used {
        var i :| 0 <= i < |op.made| && op.made[i] == id;
      }
    }
  }

  /** DROP safety: over any run of creates, drops and lookups, whatever the server answered, every
      calendar that was there at ATTACH or has been made since and is gone at the end is one that a
      CREATE TABLE AS of this run reported. */
  lemma {:induction false} DropSafety(session: Session, ops: seq<Op>, mine: set<string>)
    requires Sound(session, mine) && FreshRun(session, ops)
    ensures forall id :: id in session.remote + MadeByAll(ops) && id !in AfterOps(session, ops).remote ==>
                           id in mine + ReportedBy(ops)
    decreases ops
  {
    if ops == [] {
    } else {
      OpKeepsSound(session, ops[0], mine);
      DropSafety(AfterOp(session, ops[0]), ops[1..], mine + Reported(ops[0]));
      assert mine + Reported(ops[0]) + ReportedBy(ops[1..]) == mine + ReportedBy(ops);
      forall id | id in session.remote + MadeByAll(ops) && id !in AfterOps(session, ops).remote
        ensures id in mine + ReportedBy(ops)
      {
        if id in session.remote + MadeBy(ops[0]) && id !in AfterOp(session, ops[0]).remote {
          assert id in mine;
        }
      }
    }
  }

  lemma {:induction false} ReportedAreFresh(session: Session, ops: seq<Op>, mine: set<string>)
    requires Sound(session, mine) && FreshRun(session, ops)
    ensures forall id :: id in ReportedBy(ops) ==> Lower(id) !in session.used
    decreases ops
  {
    if ops == [] {
    } else {
      OpKeepsSound(session, ops[0], mine);
      ReportedAreFresh(AfterOp(session, ops[0]), ops[1..], mine + Reported(ops[0]));
      assert session.used <= AfterOp(session, ops[0]).used;
    }
  }

  /** So a session that starts with nothing created never removes a calendar it found. */
  lemma PreexistingCalendarsSurvive(session: Session, ops: seq<Op>)
    requires Sound(session, {}) && FreshRun(session, ops)
    ensures session.remote <= AfterOps(session, ops).remote
  {
    DropSafety(session, ops, {});
    ReportedAreFresh(session, ops, {});
  }

  // ---------- tables without a calendar ----------

  /** Every table stands for a calendar that is on the server. */
  ghost predicate Backed(session: Session) {
    forall name :: name in session.tables ==> session.tables[name].calendarId in session.remote
  }

  /** A calendar this session created stands under one name only. */
  ghost predicate CreatedOnce(session: Session) {
    forall a, b ::
      a in session.tables && b in session.tables && Lower(session.tables[a].calendarId) in session.created
      && Lower(session.tables[a].calendarId) == Lower(session.tables[b].calendarId)
      ==> a == b
  }

  /** A DROP that removes the calendar but is not told so. */
  predicate LostDrop(session: Session, op: Op) {
    op.DropTable? && DropVerdict(session, op) == RemoteFailed && op.carriedOut
  }

  lemma CreateKeepsBacked(session: Session, op: Op, mine: set<string>)
    requires Sound(session, mine) && FreshIds(session, op) && CreatedOnce(session) && op.CreateTableAs?
    ensures CreatedOnce(AfterOp(session, op)) && (Backed(session) ==> Backed(AfterOp(session, op)))
  {
  }

  /** What a DROP does, by its verdict: it removes and unregisters one calendar, of a created id, or it
      leaves the tables and the created ids as they were, and unless the remote call failed the server
      too. It is refused exactly for a mounted calendar this session has not created, and passes over an
      unknown name silently exactly under IF EXISTS; and it leaves a
      table without its calendar exactly if it is a lost drop. */
  lemma DropOutcome(session: Session, op: Op)
    requires op.DropTable?
    ensures var verdict := DropVerdict(session, op);
            var after := AfterDrop(session, op);
            && (verdict != Dropped ==> after.tables == session.tables && after.created == session.created)
            && (verdict != Dropped && verdict != RemoteFailed ==> after == session)
            && (verdict == Dropped ==>
                  && Lower(op.name) in session.tables
                  && var id := session.tables[Lower(op.name)].calendarId;
                  && Lower(id) in session.created
                  && after.remote == session.remote - {id}
                  && after.tables == session.tables - {Lower(op.name)}
                  && after.created == session.created - {Lower(id)})
            && (verdict == RefusedForeign <==>
                && op.isTable && Lower(op.name) in session.tables
                && Lower(session.tables[Lower(op.name)].calendarId) !in session.created)
    ensures var verdict := DropVerdict(session, op);
            var known := Lower(op.name) in session.tables;
            && (verdict == NotATable <==> !op.isTable)
            && (verdict == Ignored <==> op.isTable && !known && op.ifExists)
            && (verdict == NotFound <==> op.isTable && !known && !op.ifExists)
            && (verdict == Dropped || verdict == RemoteFailed <==>
                op.isTable && known && Lower(session.tables[Lower(op.name)].calendarId) in session.created)
            && (verdict == Dropped ==> op.answered) && (verdict == RemoteFailed ==> !op.answered)
    ensures Backed(session) && CreatedOnce(session) ==>
              CreatedOnce(AfterDrop(session, op)) && (Backed(AfterDrop(session, op)) <==> !LostDrop(session, op))
  {
    var after := AfterDrop(session, op);
    if LostDrop(session, op) {
      assert Lower(op.name) in after.tables && after.tables[Lower(op.name)].calendarId !in after.remote;
    }
  }

  /** The two statements that strand a table: a CREATE, and a DROP carried out but not answered. */
  function StrandingRun(name: string, id: string): seq<Op> {
    [CreateTableAs(name, [id], true), DropTable(name, true, false, true, false)]
  }

  /** In any session they leave a table without its calendar. */
  lemma LostDropHappens(session: Session, name: string, id: string)
    requires Lower(id) !in session.used
    ensures var ops := StrandingRun(name, id);
            FreshRun(session, ops) && LostDrop(AfterOp(session, ops[0]), ops[1]) && !Backed(AfterOps(session, ops))
  {
    var ops := StrandingRun(name, id);
    var middle := AfterOp(session, ops[0]);
    assert ops[1..] == [ops[1]] && ops[1..][1..] == [];
    assert middle.tables[Lower(name)] == Table(name, id) && Lower(id) in middle.created;
    var after := AfterOp(middle, ops[1]);
    assert AfterOps(session, ops) == AfterOps(middle, ops[1..]) == AfterOps(after, ops[1..][1..]) == after;
    assert Lower(name) in after.tables && after.tables[Lower(name)].calendarId !in after.remote;
    assert FreshIds(session, ops[0]) && FreshIds(middle, ops[1]);
    assert FreshRun(middle, ops[1..]);
  }

  ghost predicate NoLostDrop(session: Session, ops: seq<Op>)
    decreases ops
  {
    ops == [] || (!LostDrop(session, ops[0]) && NoLostDrop(AfterOp(session, ops[0]), ops[1..]))
  }

  /** Over any run without a lost drop, every table keeps its calendar. */
  lemma {:induction false} TablesStayBacked(session: Session, ops: seq<Op>, mine: set<string>)
    requires Sound(session, mine) && Backed(session) && CreatedOnce(session)
    requires FreshRun(session, ops) && NoLostDrop(session, ops)
    ensures Backed(AfterOps(session, ops)) && CreatedOnce(AfterOps(session, ops))
    decreases ops
  {
    if ops == [] {
    } else {
      OpKeepsSound(session, ops[0], mine);
      if ops[0].CreateTableAs? {
        CreateKeepsBacked(session, ops[0], mine);
      } else if ops[0].DropTable? {
        DropOutcome(session, ops[0]);
      }
      TablesStayBacked(AfterOp(session, ops[0]), ops[1..], mine + Reported(ops[0]));
    }
  }

  // ---------- the session that ATTACH starts ----------

  lemma MountedIdsAreListed(aliases: seq<Alias>, ids: seq<string>, name: string)
    requires name in Registered(map[], Mounts(aliases, ids))
    ensures Registered(map[], Mounts(aliases, ids))[name].calendarId in ids
  {
    var mounts := Mounts(aliases, ids);
    RegisteredLast(map[], mounts, name);
    var table := Registered(map[], mounts)[name];
    MountsMembers(aliases, ids, table.calendarId, table.name);
  }

  /** The session after ATTACH has mounted these listed calendars. */
  function Attached(aliases: seq<Alias>, ids: seq<string>, remote: set<string>, used: set<string>): Session {
    Session(remote, used, Registered(map[], Mounts(aliases, ids)), {})
  }

  /** What ATTACH leaves is sound, and every table stands for a calendar on the server. */
  lemma AttachedIsSound(aliases: seq<Alias>, ids: seq<string>, remote: set<string>, used: set<string>)
    requires forall id :: id in remote ==> Lower(id) in used
    requires forall id :: id in ids ==> id in remote
    ensures Sound(Attached(aliases, ids, remote, used), {}) && Backed(Attached(aliases, ids, remote, used))
  {
    var session := Attached(aliases, ids, remote, used);
    forall name | name in session.tables ensures session.tables[name].calendarId in ids {
      MountedIdsAreListed(aliases, ids, name);
    }
  }

  /** From ATTACH through any run of statements, no calendar found on the server is ever removed; and every
      table keeps its calendar if no drop is lost. */
  lemma AttachedCalendarsSurvive(aliases: seq<Alias>, ids: seq<string>, remote: set<string>, used: set<string>,
                                 ops: seq<Op>)
    requires forall id :: id in remote ==> Lower(id) in used
    requires forall id :: id in ids ==> id in remote
    requires FreshRun(Attached(aliases, ids, remote, used), ops)
    ensures remote <= AfterOps(Attached(aliases, ids, remote, used), ops).remote
    ensures NoLostDrop(Attached(aliases, ids, remote, used), ops) ==>
              Backed(AfterOps(Attached(aliases, ids, remote, used), ops))
  {
    var session := Attached(aliases, ids, remote, used);
    AttachedIsSound(aliases, ids, remote, used);
    PreexistingCalendarsSurvive(session, ops);
    if NoLostDrop(session, ops) {
      TablesStayBacked(session, ops, {});
    }
  }

  // ---------- the catalog, as the code runs it ----------

  datatype LoadError = UnknownCalendar(calendarId: string)

  class CalendarCatalog {
    const calendarAliases: seq<Alias>
    var tables: Tables
    var createdCalendarIds: set<string>

    constructor (calendarAliases: seq<Alias>)
      ensures this.calendarAliases == calendarAliases && tables == map[] && createdCalendarIds == {}
    {
      this.calendarAliases := calendarAliases;
      tables, createdCalendarIds := map[], {};
    }

    method AddTable(table: Table)
      modifies this`tables
      ensures tables == WithTable(old(tables), table)
    {
      tables := tables[Lower(table.name) := table];
    }

    function LookupEntry(name: string): (r: Option<Table>)
      reads this
      ensures r.Some? <==> Lower(name) in tables
      ensures r.Some? ==> r.value == tables[Lower(name)]
    {
      if Lower(name) in tables then Some(tables[Lower(name)]) else None
    }

    method MarkCreatedThisSession(calendarId: string)
      modifies this`createdCalendarIds
      ensures createdCalendarIds == old(createdCalendarIds) + {Lower(calendarId)}
    {
      createdCalendarIds := createdCalendarIds + {Lower(calendarId)};
    }

    predicate WasCreatedThisSession(calendarId: string)
      reads this
    {
      Lower(calendarId) in createdCalendarIds
    }

    method ForgetCreatedThisSession(calendarId: string)
      modifies this`createdCalendarIds
      ensures createdCalendarIds == old(createdCalendarIds) - {Lower(calendarId)}
    {
      createdCalendarIds := createdCalendarIds - {Lower(calendarId)};
    }

    ghost predicate InvertsAliases(byId: map<string, seq<string>>) {
      && (forall id :: Lower(id) in byId <==> NamesFor(calendarAliases, id) != [])
      && (forall id :: Lower(id) in byId ==> byId[Lower(id)] == NamesFor(calendarAliases, id))
    }

    /** Inverts the aliases: calendar id, in lower case, to the names it is aliased by. */
    method InvertAliases() returns (byId: map<string, seq<string>>)
      ensures InvertsAliases(byId)
    {
      byId := map[];
      for i := 0 to |calendarAliases|
        invariant forall id :: Lower(id) in byId <==> NamesFor(calendarAliases[..i], id) != []
        invariant forall id :: Lower(id) in byId ==> byId[Lower(id)] == NamesFor(calendarAliases[..i], id)
      {
        var alias := calendarAliases[i];
        var key := Lower(alias.calendarId);
        forall id ensures NamesFor(calendarAliases[..i + 1], id)
                       == NamesFor(calendarAliases[..i], id) + if Lower(id) == key then [alias.name] else []
        {
          assert calendarAliases[..i + 1] == calendarAliases[..i] + [alias];
          NamesForLast(calendarAliases[..i], alias, id);
        }
        byId := byId[key := (if key in byId then byId[key] else []) + [alias.name]];
      }
      assert calendarAliases[..|calendarAliases|] == calendarAliases;
    }

    /** Registers one calendar under several names. */
    method AddTables(names: seq<string>, id: string)
      modifies this`tables
      ensures tables == Registered(old(tables), TablesNamed(names, id))
    {
      ghost var mounted := TablesNamed(names, id);
      for k := 0 to |names|
        invariant tables == Registered(old(tables), mounted[..k])
      {
        RegisteredNext(old(tables), mounted, k);
        AddTable(Table(names[k], id));
      }
      assert mounted[..|names|] == mounted;
    }

    /** Mounts the calendars of one page, each under all of its names. */
    method MountPage(byId: map<string, seq<string>>, items: seq<string>) returns (ids: set<string>)
      requires InvertsAliases(byId)
      modifies this`tables
      ensures tables == Registered(old(tables), Mounts(calendarAliases, items)) && ids == LowerIds(items)
    {
      ids := {};
      for i := 0 to |items|
        invariant Loaded(calendarAliases, old(tables), tables, ids, items[..i])
      {
        LoadedNext(calendarAliases, old(tables), tables, ids, items, i);
        ids := ids + {Lower(items[i])};
        var names := if Lower(items[i]) in byId then byId[Lower(items[i])] else [items[i]];
        AddTables(names, items[i]);
      }
      assert items[..|items|] == items;
    }

    /** Fails on the first alias whose calendar was not seen. */
    method CheckAliases(seenIds: set<string>) returns (error: Option<LoadError>)
      ensures error.None?
         <==> forall i :: 0 <= i < |calendarAliases| ==> Lower(calendarAliases[i].calendarId) in seenIds
      ensures error.Some? ==> Lower(error.value.calendarId) !in seenIds
    {
      for i := 0 to |calendarAliases|
        invariant forall k :: 0 <= k < i ==> Lower(calendarAliases[k].calendarId) in seenIds
      {
        if Lower(calendarAliases[i].calendarId) !in seenIds {
          return Some(UnknownCalendar(calendarAliases[i].calendarId));
        }
      }
      return None;
    }

    /** Mounts every listed calendar, page by page, then fails if some alias names none of them. */
    method LoadCatalog(listing: Listing<string>, ghost more: nat) returns (error: Option<LoadError>)
      requires Chained(listing, "", more)
      modifies this`tables
      ensures tables == Registered(old(tables), Mounts(calendarAliases, ItemsFrom(listing, "", more)))
      ensures error.None? <==> AllAliasesListed(calendarAliases, ItemsFrom(listing, "", more))
      ensures error.Some? ==> !ListedId(ItemsFrom(listing, "", more), error.value.calendarId)
    {
      var byId := InvertAliases();
      var seenIds: set<string> := {};
      var pageToken := "";
      var last := false;
      ghost var left := more;
      ghost var done: seq<string> := [];
      ghost var all := ItemsFrom(listing, "", more);
      while !last
        invariant Underway(listing, all, done, last, pageToken, left)
        invariant Loaded(calendarAliases, old(tables), tables, seenIds, done)
        decreases !last, left
      {
        PageDone(listing, all, done, pageToken, left);
        var response := listing[pageToken];
        LoadedMore(calendarAliases, old(tables), tables, seenIds, done, PageItems(response));
        var ids := MountPage(byId, PageItems(response));
        seenIds, done := seenIds + ids, done + PageItems(response);
        pageToken := response.nextToken;
        last := pageToken == "";
        left := if last then left else left - 1;
      }
      error := CheckAliases(seenIds);
    }

    /** The tables and created ids are those of this session. */
    ghost predicate Holds(session: Session)
      reads this
    {
      tables == session.tables && createdCalendarIds == session.created
    }

    /** CREATE TABLE AS after its POST: on a normal answer the calendar it reports is registered and
        marked. */
    method CreateTableAs(op: Op, ghost session: Session)
      requires op.CreateTableAs? && Holds(session)
      modifies this
      ensures Holds(AfterCreate(session, op.name, op.made, op.answered))
    {
      if op.answered && op.made != [] {
        var calendarId := op.made[|op.made| - 1];
        AddTable(Table(op.name, calendarId));
        MarkCreatedThisSession(calendarId);
      }
    }

    /** DROP TABLE; the remote delete, attempted only past the guard, is answered normally or not. The
        calendar to delete is `deleting`, None if the server is not asked at all. */
    method DropEntry(op: Op, ghost session: Session) returns (result: DropResult, deleting: Option<string>)
      requires op.DropTable? && Holds(session)
      modifies this
      ensures result == DropVerdict(session, op)
      ensures Holds(AfterDrop(session, op))
      ensures deleting.Some? <==> result == Dropped || result == RemoteFailed
      ensures deleting.Some? ==> Lower(deleting.value) in session.created
    {
      deleting := None;
      if !op.isTable {
        return NotATable, None;
      }
      var entry := LookupEntry(op.name);
      if entry.None? {
        return if op.ifExists then Ignored else NotFound, None;
      }
      var calendarId := entry.value.calendarId;
      if !WasCreatedThisSession(calendarId) {
        return RefusedForeign, None;
      }
      deleting := Some(calendarId);
      if !op.answered {
        return RemoteFailed, deleting;
      }
      ForgetCreatedThisSession(calendarId);
      tables := tables - {Lower(op.name)};
      result := Dropped;
    }

    /** The statements of a session, one after another. */
    method Perform(ops: seq<Op>, ghost session: Session) returns (ghost after: Session)
      requires Holds(session) && Sound(session, {}) && FreshRun(session, ops)
      modifies this
      ensures Holds(after) && after == AfterOps(session, ops)
      ensures session.remote <= after.remote
    {
      PreexistingCalendarsSurvive(session, ops);
      after := session;
      for i := 0 to |ops|
        invariant Holds(after) && AfterOps(after, ops[i..]) == AfterOps(session, ops)
      {
        assert ops[i..][0] == ops[i] && ops[i..][1..] == ops[i + 1..];
        match ops[i] {
          case CreateTableAs(_, _, _) => CreateTableAs(ops[i], after);
          case DropTable(_, _, _, _, _) => var _, _ := DropEntry(ops[i], after);
          case LookupTable(name) => var _ := LookupEntry(name);
        }
        after := AfterOp(after, ops[i]);
      }
      assert ops[|ops|..] == [];
    }
  }

  lemma {:induction false} NamesForLast(aliases: seq<Alias>, last: Alias, id: string)
    ensures NamesFor(aliases + [last], id)
         == NamesFor(aliases, id) + if Lower(id) == Lower(last.calendarId) then [last.name] else []
  {
    if aliases == [] {
      assert [last][1..] == [];
    } else {
      assert (aliases + [last])[1..] == aliases[1..] + [last];
      NamesForLast(aliases[1..], last, id);
    }
  }
}
