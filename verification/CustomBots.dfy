/** Published bot versions and deployed instances: publishing, deleting, deploying and updating, one
    operation at a time, over the two tables. */
module CustomBots {
  import opened Results
  import opened Versions

  datatype Row = Row(id: string, userId: string, name: string, version: string, createdAt: nat)

  /** A deployed bot: the name in config.type, config.version, and the version row it refers to. */
  datatype Instance = Instance(id: string, userId: string, name: string, version: string, customBotId: string)

  /** Both tables list their rows in the order of insertion. */
  datatype Tables = Tables(rows: seq<Row>, instances: seq<Instance>)

  datatype ServiceError = Rejected | AlreadyExists | Missing | NotOwner | NotNewer | InUse | MajorChange

  // ---------- queries ----------

  /** The first row of a name in the order of descending createdAt. */
  function Latest(rows: seq<Row>, name: string): (r: Option<Row>)
    ensures r.Some? ==> r.value in rows && r.value.name == name
    ensures r.None? ==> forall q :: q in rows ==> q.name != name
  {
    if rows == [] then None
    else
      var before, r := Latest(rows[..|rows| - 1], name), rows[|rows| - 1];
      if r.name == name && (before.None? || r.createdAt >= before.value.createdAt) then Some(r) else before
  }

  function Find(rows: seq<Row>, name: string, version: string): (r: Option<Row>)
    ensures r.Some? ==> r.value in rows && r.value.name == name && r.value.version == version
    ensures r.None? ==> forall q :: q in rows ==> !(q.name == name && q.version == version)
  {
    if rows == [] then None
    else if rows[0].name == name && rows[0].version == version then Some(rows[0])
    else Find(rows[1..], name, version)
  }

  function FindById(rows: seq<Row>, id: string): (r: Option<Row>)
    ensures r.Some? ==> r.value in rows && r.value.id == id
    ensures r.None? ==> forall q :: q in rows ==> q.id != id
  {
    if rows == [] then None else if rows[0].id == id then Some(rows[0]) else FindById(rows[1..], id)
  }

  function FindInstance(instances: seq<Instance>, userId: string, id: string): (r: Option<Instance>)
    ensures r.Some? ==> r.value in instances && r.value.id == id && r.value.userId == userId
    ensures r.None? ==> forall b :: b in instances ==> !(b.id == id && b.userId == userId)
  {
    if instances == [] then None
    else if instances[0].id == id && instances[0].userId == userId then Some(instances[0])
    else FindInstance(instances[1..], userId, id)
  }

  predicate InUseBy(instances: seq<Instance>, rowId: string) {
    exists b :: b in instances && b.customBotId == rowId
  }

  /** How many instances refer to a row. */
  function Count(instances: seq<Instance>, rowId: string): (n: nat)
    ensures n > 0 <==> InUseBy(instances, rowId)
  {
    if instances == [] then 0
    else
      var last := instances[|instances| - 1];
      assert instances == instances[..|instances| - 1] + [last];
      assert forall b :: b in instances <==> b in instances[..|instances| - 1] || b == last;
      Count(instances[..|instances| - 1], rowId) + (if last.customBotId == rowId then 1 else 0)
  }

  lemma CountSnoc(instances: seq<Instance>, last: Instance)
    ensures forall id :: Count(instances + [last], id) == Count(instances, id) + if last.customBotId == id then 1 else 0
  {
    var longer := instances + [last];
    assert longer[..|longer| - 1] == instances && longer[|longer| - 1] == last;
  }

  ghost predicate AreCounts(counts: map<string, nat>, ids: seq<string>, instances: seq<Instance>) {
    && (forall id :: id in counts <==> id in ids)
    && (forall id :: id in counts ==> counts[id] == Count(instances, id))
  }

  lemma OneMoreCounted(counts: map<string, nat>, ids: seq<string>, instances: seq<Instance>, k: nat)
    requires k < |instances| && AreCounts(counts, ids, instances[..k])
    ensures var id := instances[k].customBotId;
      AreCounts(if id in ids then counts[id := counts[id] + 1] else counts, ids, instances[..k + 1])
  {
    assert instances[..k + 1] == instances[..k] + [instances[k]];
    CountSnoc(instances[..k], instances[k]);
  }

  lemma AllCounted(counts: map<string, nat>, ids: seq<string>, instances: seq<Instance>)
    requires AreCounts(counts, ids, instances[..|instances|])
    ensures AreCounts(counts, ids, instances)
  {
    assert instances[..|instances|] == instances;
  }

  function IsNewer(current: string, next: string): Option<bool> {
    if Parse(current).Some? && Parse(next).Some? then Some(Precedes(Parse(current).value, Parse(next).value)) else None
  }

  // ---------- effects of the queries that write ----------

  function Without<T(!new)>(all: seq<T>, gone: T -> bool): (kept: seq<T>)
    ensures forall r :: r in kept <==> r in all && !gone(r)
  {
    if all == [] then []
    else
      assert all == [all[0]] + all[1..];
      (if gone(all[0]) then [] else [all[0]]) + Without(all[1..], gone)
  }

  /** UPDATE ... WHERE user_id = and id =. */
  function Rewritten(instances: seq<Instance>, to: Instance): (after: seq<Instance>)
    ensures |after| == |instances|
    ensures forall i :: 0 <= i < |after| ==>
      after[i] == if instances[i].id == to.id && instances[i].userId == to.userId then to else instances[i]
  {
    seq(|instances|, i requires 0 <= i < |instances| =>
      if instances[i].id == to.id && instances[i].userId == to.userId then to else instances[i])
  }

  // ---------- operations ----------

  /** `wellFormed` is the outcome of the checks on the config (schema, name, runtime) beside the version
      pattern, `zipped` that of the check on the ZIP, `accepted` that of the bot's own config schema. */
  datatype Operation =
    | Create(userId: string, name: string, version: string, wellFormed: bool, zipped: bool, id: string, at: nat)
    | Update(userId: string, name: string, version: string, wellFormed: bool, zipped: bool, id: string, at: nat)
    | DeleteVersion(userId: string, name: string, version: string)
    | DeleteAll(userId: string, name: string)
    | Deploy(bot: string, userId: string, name: string, version: string, accepted: bool)
    | UpdateInstance(bot: string, userId: string, name: string, version: string, accepted: bool)
    | RemoveInstance(bot: string, userId: string)

  /** What the database adds: new ids are new, and a new row is created later than every row before. */
  ghost predicate Novel(t: Tables, op: Operation) {
    match op
    case Create(_, _, _, _, _, id, at) => forall r :: r in t.rows ==> r.id != id && r.createdAt < at
    case Update(_, _, _, _, _, id, at) => forall r :: r in t.rows ==> r.id != id && r.createdAt < at
    case Deploy(bot, _, _, _, _) => forall b :: b in t.instances ==> b.id != bot
    case _ => true
  }

  function CheckOwner(rows: seq<Row>, userId: string, name: string): Option<ServiceError> {
    var latest := Latest(rows, name);
    if latest.None? then Some(Missing) else if latest.value.userId != userId then Some(NotOwner) else None
  }

  function UpdateRefusal(rows: seq<Row>, userId: string, name: string, version: string, wellFormed: bool,
                         zipped: bool): Option<ServiceError>
  {
    if !HasPattern(version) || !wellFormed then Some(Rejected)
    else if CheckOwner(rows, userId, name).Some? then CheckOwner(rows, userId, name)
    else
      var newer := IsNewer(Latest(rows, name).value.version, version);
      if newer.None? then Some(Rejected)
      else if !newer.value then Some(NotNewer)
      else if Find(rows, name, version).Some? then Some(AlreadyExists)
      else if !zipped then Some(Rejected)
      else None
  }

  function TypeRefusal(rows: seq<Row>, name: string, version: string, accepted: bool): Option<ServiceError> {
    if Parse(version).None? || Find(rows, name, version).None? || !accepted then Some(Rejected) else None
  }

  /** The error an operation ends with; None when it goes through. */
  function Refusal(t: Tables, op: Operation): Option<ServiceError> {
    match op
    case Create(_, name, version, wellFormed, zipped, _, _) =>
      if !HasPattern(version) || !wellFormed then Some(Rejected)
      else if Latest(t.rows, name).Some? then Some(AlreadyExists)
      else if !zipped then Some(Rejected)
      else None
    case Update(userId, name, version, wellFormed, zipped, _, _) =>
      UpdateRefusal(t.rows, userId, name, version, wellFormed, zipped)
    case DeleteVersion(userId, name, version) =>
      if CheckOwner(t.rows, userId, name).Some? then CheckOwner(t.rows, userId, name)
      else if Find(t.rows, name, version).None? then Some(Missing)
      else if InUseBy(t.instances, Find(t.rows, name, version).value.id) then Some(InUse)
      else None
    case DeleteAll(userId, name) =>
      if CheckOwner(t.rows, userId, name).Some? then CheckOwner(t.rows, userId, name)
      else if exists r :: r in t.rows && r.name == name && InUseBy(t.instances, r.id) then Some(InUse)
      else None
    case Deploy(_, _, name, version, accepted) => TypeRefusal(t.rows, name, version, accepted)
    case UpdateInstance(bot, userId, name, version, accepted) =>
      if TypeRefusal(t.rows, name, version, accepted).Some? then TypeRefusal(t.rows, name, version, accepted)
      else
        var current := FindInstance(t.instances, userId, bot);
        if current.None? then Some(Missing)
        else if Parse(current.value.version).None? then Some(Rejected)
        else if Parse(current.value.version).value.major != Parse(version).value.major then Some(MajorChange)
        else None
    case RemoveInstance(bot, userId) =>
      if FindInstance(t.instances, userId, bot).None? then Some(Missing) else None
  }

  /** The row an updated instance is stored with: the reference moves only when the version changes. */
  function Moved(rows: seq<Row>, current: Instance, name: string, version: string): Instance
    requires Find(rows, name, version).Some?
  {
    Instance(current.id, current.userId, name, version,
      if Parse(current.version) != Parse(version) then Find(rows, name, version).value.id else current.customBotId)
  }

  /** The tables after one operation. */
  function Next(t: Tables, op: Operation): Tables {
    if Refusal(t, op).Some? then t
    else match op
      case Create(userId, name, version, _, _, id, at) => t.(rows := t.rows + [Row(id, userId, name, version, at)])
      case Update(userId, name, version, _, _, id, at) => t.(rows := t.rows + [Row(id, userId, name, version, at)])
      case DeleteVersion(userId, name, version) =>
        var id := Find(t.rows, name, version).value.id;
        t.(rows := Without(t.rows, (r: Row) => r.userId == userId && r.id == id))
      case DeleteAll(userId, name) =>
        t.(rows := Without(t.rows, (r: Row) => r.userId == userId && r.name == name))
      case Deploy(bot, userId, name, version, _) =>
        t.(instances := t.instances + [Instance(bot, userId, name, version, Find(t.rows, name, version).value.id)])
      case UpdateInstance(bot, userId, name, version, _) =>
        var current := FindInstance(t.instances, userId, bot).value;
        t.(instances := Rewritten(t.instances, Moved(t.rows, current, name, version)))
      case RemoveInstance(bot, userId) =>
        t.(instances := Without(t.instances, (b: Instance) => b.userId == userId && b.id == bot))
  }

  // ---------- the invariant ----------

  /** a was published before b: of one name, they have one owner and b's version is the later one. */
  predicate Before(a: Row, b: Row) {
    a.createdAt < b.createdAt && a.id != b.id &&
    (a.name == b.name ==>
      a.userId == b.userId && Parse(a.version).Some? && Parse(b.version).Some? &&
      Precedes(Parse(a.version).value, Parse(b.version).value))
  }

  ghost predicate RowsInv(rows: seq<Row>) {
    forall i, j :: 0 <= i < j < |rows| ==> Before(rows[i], rows[j])
  }

  /** The reference names an existing row, and the instance's version is one semver accepts. */
  ghost predicate Refers(b: Instance, rows: seq<Row>) {
    Parse(b.version).Some? && exists r :: r in rows && r.id == b.customBotId
  }

  ghost predicate InstancesInv(t: Tables) {
    && (forall i, j :: 0 <= i < j < |t.instances| ==> t.instances[i].id != t.instances[j].id)
    && forall b :: b in t.instances ==> Refers(b, t.rows)
  }

  ghost predicate Inv(t: Tables) {
    RowsInv(t.rows) && InstancesInv(t)
  }

  /** The row an instance refers to is the one of its own name and version. */
  ghost predicate Matches(b: Instance, rows: seq<Row>) {
    exists r :: r in rows && r.id == b.customBotId && r.name == b.name && r.version == b.version
  }

  ghost predicate Matched(t: Tables) {
    forall b :: b in t.instances ==> Matches(b, t.rows)
  }

  lemma WithoutPairs<T(!new)>(all: seq<T>, gone: T -> bool, ordered: (T, T) -> bool)
    requires forall i, j :: 0 <= i < j < |all| ==> ordered(all[i], all[j])
    ensures forall i, j :: 0 <= i < j < |Without(all, gone)| ==> ordered(Without(all, gone)[i], Without(all, gone)[j])
  {
    if all != [] {
      WithoutPairs(all[1..], gone, ordered);
      var rest := Without(all[1..], gone);
      forall j | 0 <= j < |rest| ensures ordered(all[0], rest[j]) {
        assert rest[j] in all[1..];
      }
    }
  }

  lemma WithoutKeepsRows(rows: seq<Row>, gone: Row -> bool)
    requires RowsInv(rows)
    ensures RowsInv(Without(rows, gone))
  {
    WithoutPairs(rows, gone, (a: Row, b: Row) => Before(a, b));
  }

  lemma WithoutKeepsIds(instances: seq<Instance>, gone: Instance -> bool)
    requires forall i, j :: 0 <= i < j < |instances| ==> instances[i].id != instances[j].id
    ensures forall i, j :: 0 <= i < j < |Without(instances, gone)| ==>
      Without(instances, gone)[i].id != Without(instances, gone)[j].id
  {
    WithoutPairs(instances, gone, (a: Instance, b: Instance) => a.id != b.id);
  }

  /** The latest row by createdAt carries the greatest version of its name. */
  lemma {:induction false} LatestIsMaximum(rows: seq<Row>, name: string)
    requires RowsInv(rows)
    ensures Latest(rows, name).Some? <==> exists r :: r in rows && r.name == name
    ensures Latest(rows, name).Some? ==>
      var latest := Latest(rows, name).value;
      forall r :: r in rows && r.name == name && r != latest ==> Before(r, latest)
  {
    if rows == [] {
    } else {
      var before, last := rows[..|rows| - 1], rows[|rows| - 1];
      assert rows == before + [last];
      LatestIsMaximum(before, name);
      forall r | r in before ensures Before(r, last) {
        var i :| 0 <= i < |before| && before[i] == r;
        assert rows[i] == r;
      }
    }
  }

  lemma SameIdSameRow(rows: seq<Row>, a: Row, b: Row)
    requires RowsInv(rows) && a in rows && b in rows
    requires a.id == b.id || (a.name == b.name && Parse(a.version) == Parse(b.version))
    ensures a == b
  {
    var i :| 0 <= i < |rows| && rows[i] == a;
    var j :| 0 <= j < |rows| && rows[j] == b;
    assert i == j;
  }

  lemma AppendKeepsRows(rows: seq<Row>, r: Row)
    requires RowsInv(rows)
    requires forall q :: q in rows ==> Before(q, r)
    ensures RowsInv(rows + [r])
  {
  }

  /** A new version that is later than the latest one is later than all of them. */
  lemma NewVersionIsLater(rows: seq<Row>, r: Row)
    requires RowsInv(rows) && (forall q :: q in rows ==> q.id != r.id && q.createdAt < r.createdAt)
    requires CheckOwner(rows, r.userId, r.name).None?
    requires IsNewer(Latest(rows, r.name).value.version, r.version) == Some(true)
    ensures forall q :: q in rows ==> Before(q, r)
  {
    LatestIsMaximum(rows, r.name);
  }

  lemma StepKeepsRows(t: Tables, op: Operation)
    requires Inv(t) && Novel(t, op)
    ensures RowsInv(Next(t, op).rows)
  {
    if Refusal(t, op).None? {
      match op
      case Create(userId, name, version, _, _, id, at) =>
        AppendKeepsRows(t.rows, Row(id, userId, name, version, at));
      case Update(userId, name, version, _, _, id, at) =>
        NewVersionIsLater(t.rows, Row(id, userId, name, version, at));
        AppendKeepsRows(t.rows, Row(id, userId, name, version, at));
      case DeleteVersion(userId, name, version) =>
        var id := Find(t.rows, name, version).value.id;
        WithoutKeepsRows(t.rows, (r: Row) => r.userId == userId && r.id == id);
      case DeleteAll(userId, name) =>
        WithoutKeepsRows(t.rows, (r: Row) => r.userId == userId && r.name == name);
      case _ =>
    }
  }

  /** No operation takes away a row that an instance refers to. */
  lemma UsedRowsStay(t: Tables, op: Operation, r: Row)
    requires Inv(t) && Novel(t, op) && r in t.rows && InUseBy(t.instances, r.id)
    ensures r in Next(t, op).rows
  {
  }

  lemma StepKeepsReference(t: Tables, op: Operation, b: Instance)
    requires Inv(t) && Novel(t, op) && b in Next(t, op).instances
    ensures Refers(b, Next(t, op).rows)
  {
    if b in t.instances {
      var r :| r in t.rows && r.id == b.customBotId;
      UsedRowsStay(t, op, r);
    } else if op.UpdateInstance? {
      var current := FindInstance(t.instances, op.userId, op.bot).value;
      var r :| r in t.rows && r.id == current.customBotId;
    }
  }

  lemma StepKeepsInstances(t: Tables, op: Operation)
    requires Inv(t) && Novel(t, op)
    ensures InstancesInv(Next(t, op))
  {
    forall b | b in Next(t, op).instances ensures Refers(b, Next(t, op).rows) {
      StepKeepsReference(t, op, b);
    }
    if op.RemoveInstance? {
      WithoutKeepsIds(t.instances, (b: Instance) => b.userId == op.userId && b.id == op.bot);
    }
  }

  lemma StepKeepsInv(t: Tables, op: Operation)
    requires Inv(t) && Novel(t, op)
    ensures Inv(Next(t, op))
  {
    StepKeepsRows(t, op);
    StepKeepsInstances(t, op);
  }

  // ---------- whole runs ----------

  function Run(t: Tables, ops: seq<Operation>): Tables
    decreases |ops|
  {
    if ops == [] then t else Run(Next(t, ops[0]), ops[1..])
  }

  ghost predicate Admissible(t: Tables, ops: seq<Operation>)
    decreases |ops|
  {
    ops == [] || (Novel(t, ops[0]) && Admissible(Next(t, ops[0]), ops[1..]))
  }

  /** Whatever is published, deleted, deployed and updated: the rows of a name share one owner and grow in
      version, and every instance refers to an existing row. */
  lemma {:induction false} RunInvariant(t: Tables, ops: seq<Operation>)
    requires Inv(t) && Admissible(t, ops)
    ensures Inv(Run(t, ops))
    decreases |ops|
  {
    if ops == [] {
    } else {
      StepKeepsInv(t, ops[0]);
      RunInvariant(Next(t, ops[0]), ops[1..]);
    }
  }

  /** From empty tables on, the cheap query for the latest row finds the greatest version there is. */
  lemma LatestAfterAnyRun(ops: seq<Operation>, name: string, r: Row)
    requires Admissible(Tables([], []), ops)
    requires var rows := Run(Tables([], []), ops).rows; r in rows && r.name == name
    ensures var latest := Latest(Run(Tables([], []), ops).rows, name);
      && latest.Some? && latest.value.userId == r.userId
      && (r == latest.value
          || (Parse(r.version).Some? && Parse(latest.value.version).Some?
              && Precedes(Parse(r.version).value, Parse(latest.value.version).value)))
  {
    RunInvariant(Tables([], []), ops);
    LatestIsMaximum(Run(Tables([], []), ops).rows, name);
  }

  /** An update goes through exactly when the name has rows, all of them are the caller's, and the new version
      is later than every one of them: comparing with one row, and looking for a duplicate, is enough. */
  lemma UpdateGoesThroughExactlyWhen(t: Tables, op: Operation)
    requires Inv(t) && op.Update?
    ensures Refusal(t, op).None? <==>
      && HasPattern(op.version) && op.wellFormed && op.zipped
      && (exists r :: r in t.rows && r.name == op.name)
      && forall r :: r in t.rows && r.name == op.name ==>
           r.userId == op.userId && IsNewer(r.version, op.version) == Some(true)
  {
    LatestIsMaximum(t.rows, op.name);
  }

  /** A version that goes through is at once the latest of its name, the one its name and version find, and no
      other name's latest changes. */
  lemma PublishedIsLatest(t: Tables, op: Operation)
    requires Inv(t) && Novel(t, op) && (op.Create? || op.Update?) && Refusal(t, op).None?
    ensures var row := Row(op.id, op.userId, op.name, op.version, op.at);
      && Latest(Next(t, op).rows, op.name) == Some(row)
      && Find(Next(t, op).rows, op.name, op.version) == Some(row)
    ensures forall other :: other != op.name ==> Latest(Next(t, op).rows, other) == Latest(t.rows, other)
  {
    AppendedIsLatest(t.rows, Row(op.id, op.userId, op.name, op.version, op.at));
  }

  lemma AppendedIsLatest(rows: seq<Row>, r: Row)
    requires forall q :: q in rows ==> q.createdAt < r.createdAt && !(q.name == r.name && q.version == r.version)
    ensures Latest(rows + [r], r.name) == Some(r) && Find(rows + [r], r.name, r.version) == Some(r)
    ensures forall other :: other != r.name ==> Latest(rows + [r], other) == Latest(rows, other)
  {
    var longer := rows + [r];
    assert longer[..|longer| - 1] == rows && r in longer;
    assert forall q :: q in longer && q.name == r.name && q.version == r.version ==> q == r;
  }

  /** A row goes only by its owner's deletion of its name, and an instance changes only by its own user's call. */
  lemma OnlyOwnersChange(t: Tables, op: Operation)
    requires Inv(t)
    ensures forall r :: r in t.rows && r !in Next(t, op).rows ==>
      (op.DeleteVersion? || op.DeleteAll?) && op.userId == r.userId && op.name == r.name
    ensures forall b :: b in t.instances && b !in Next(t, op).instances ==>
      (op.UpdateInstance? || op.RemoveInstance?) && op.userId == b.userId && op.bot == b.id
    ensures op.RemoveInstance? && Refusal(t, op).None? ==> forall b :: b in Next(t, op).instances ==> b.id != op.bot
  {
    if Refusal(t, op).None? {
      match op
      case DeleteVersion(userId, name, version) =>
        forall r | r in t.rows && r !in Next(t, op).rows ensures r.userId == userId && r.name == name {
          SameIdSameRow(t.rows, r, Find(t.rows, name, version).value);
        }
      case UpdateInstance(bot, userId, name, version, _) =>
        forall b | b in t.instances && b !in Next(t, op).instances ensures b.userId == userId && b.id == bot {
          var i :| 0 <= i < |t.instances| && t.instances[i] == b;
          assert Next(t, op).instances[i] in Next(t, op).instances;
        }
      case RemoveInstance(bot, userId) =>
        var removed := FindInstance(t.instances, userId, bot).value;
        forall b | b in t.instances && b.id == bot ensures b == removed {
          SameIdSameInstance(t, b, removed);
        }
      case _ =>
    }
  }

  lemma SameIdSameInstance(t: Tables, a: Instance, b: Instance)
    requires InstancesInv(t) && a in t.instances && b in t.instances && a.id == b.id
    ensures a == b
  {
    var i :| 0 <= i < |t.instances| && t.instances[i] == a;
    var j :| 0 <= j < |t.instances| && t.instances[j] == b;
    assert i == j;
  }

  // ---------- major versions ----------

  ghost predicate SameLine(a: Instance, b: Instance) {
    && a.id == b.id && a.userId == b.userId
    && Parse(a.version).Some? && Parse(b.version).Some?
    && Parse(a.version).value.major == Parse(b.version).value.major
  }

  lemma StepKeepsMajor(t: Tables, op: Operation, a: Instance, b: Instance)
    requires Inv(t) && Novel(t, op) && a in t.instances && b in Next(t, op).instances && a.id == b.id
    ensures SameLine(a, b)
  {
    if b in t.instances {
      SameIdSameInstance(t, a, b);
      assert Refers(a, t.rows);
    } else if op.UpdateInstance? {
      UpdateKeepsMajor(t, op, a, b);
    }
  }

  lemma UpdateKeepsMajor(t: Tables, op: Operation, a: Instance, b: Instance)
    requires Inv(t) && op.UpdateInstance? && Refusal(t, op).None?
    requires a in t.instances && b in Next(t, op).instances && b !in t.instances && a.id == b.id
    ensures SameLine(a, b)
  {
    var current := FindInstance(t.instances, op.userId, op.bot).value;
    assert b == Moved(t.rows, current, op.name, op.version);
    SameIdSameInstance(t, a, current);
  }

  ghost predicate Deploys(ops: seq<Operation>, bot: string) {
    exists op :: op in ops && op.Deploy? && op.bot == bot
  }

  lemma {:induction false} GoneStaysGone(t: Tables, ops: seq<Operation>, bot: string)
    requires (forall b :: b in t.instances ==> b.id != bot) && !Deploys(ops, bot)
    ensures forall b :: b in Run(t, ops).instances ==> b.id != bot
    decreases |ops|
  {
    if ops == [] {
    } else {
      assert ops[0] in ops;
      GoneStaysGone(Next(t, ops[0]), ops[1..], bot);
    }
  }

  /** An instance keeps its owner and its major version from its deployment to its removal. */
  lemma {:induction false} MajorNeverChanges(t: Tables, ops: seq<Operation>, a: Instance, b: Instance)
    requires Inv(t) && Admissible(t, ops) && !Deploys(ops, a.id)
    requires a in t.instances && b in Run(t, ops).instances && a.id == b.id
    ensures SameLine(a, b)
    decreases |ops|
  {
    if ops == [] {
      assert Refers(a, t.rows);
      var i :| 0 <= i < |t.instances| && t.instances[i] == a;
      var j :| 0 <= j < |t.instances| && t.instances[j] == b;
    } else {
      var t' := Next(t, ops[0]);
      StepKeepsInv(t, ops[0]);
      if c :| c in t'.instances && c.id == a.id {
        StepKeepsMajor(t, ops[0], a, c);
        assert !Deploys(ops[1..], c.id);
        MajorNeverChanges(t', ops[1..], c, b);
      } else {
        GoneStaysGone(t', ops[1..], a.id);
      }
    }
  }

  // ---------- which row an instance refers to ----------

  /** After a successful update the instance refers to the row of its own name and version exactly when it
      kept its name or changed its version. */
  lemma UpdateMatchesExactlyWhen(t: Tables, op: Operation)
    requires Inv(t) && Matched(t) && op.UpdateInstance? && Refusal(t, op).None?
    ensures var current := FindInstance(t.instances, op.userId, op.bot).value;
      Matches(Moved(t.rows, current, op.name, op.version), t.rows) <==>
        op.name == current.name || Parse(op.version) != Parse(current.version)
  {
    var current := FindInstance(t.instances, op.userId, op.bot).value;
    var row := Find(t.rows, op.name, op.version).value;
    var held :| held in t.rows && held.id == current.customBotId && held.name == current.name
      && held.version == current.version;
    if Parse(op.version) == Parse(current.version) {
      if op.name == current.name {
        SameIdSameRow(t.rows, held, row);
      } else {
        forall r | r in t.rows && r.id == current.customBotId ensures r.name != op.name {
          SameIdSameRow(t.rows, held, r);
        }
      }
    }
  }

  /** Every update of an instance in a run keeps the name or changes the version. */
  ghost predicate Keeping(t: Tables, op: Operation) {
    op.UpdateInstance? ==>
      forall b :: b in t.instances && b.id == op.bot ==>
        b.name == op.name || Parse(b.version) != Parse(op.version)
  }

  lemma StepKeepsMatch(t: Tables, op: Operation)
    requires Inv(t) && Matched(t) && Novel(t, op) && Keeping(t, op)
    ensures Matched(Next(t, op))
  {
    forall b | b in Next(t, op).instances ensures Matches(b, Next(t, op).rows) {
      if b in t.instances {
        var r :| r in t.rows && r.id == b.customBotId && r.name == b.name && r.version == b.version;
        UsedRowsStay(t, op, r);
      } else if op.UpdateInstance? {
        UpdateMatchesExactlyWhen(t, op);
      }
    }
  }

  ghost predicate AllKeeping(t: Tables, ops: seq<Operation>)
    decreases |ops|
  {
    ops == [] || (Keeping(t, ops[0]) && AllKeeping(Next(t, ops[0]), ops[1..]))
  }

  lemma {:induction false} RunKeepsMatch(t: Tables, ops: seq<Operation>)
    requires Inv(t) && Matched(t) && Admissible(t, ops) && AllKeeping(t, ops)
    ensures Matched(Run(t, ops))
    decreases |ops|
  {
    if ops == [] {
    } else {
      StepKeepsInv(t, ops[0]);
      StepKeepsMatch(t, ops[0]);
      RunKeepsMatch(Next(t, ops[0]), ops[1..]);
    }
  }

  /** Publish two bots, deploy the first, move the instance to the second at the same version. */
  function Renaming(): seq<Operation> {
    [Create("u", "alpha", "1.0.0", true, true, "a", 1), Create("u", "beta", "1.0.0", true, true, "b", 2),
     Deploy("i", "u", "alpha", "1.0.0", true), UpdateInstance("i", "u", "beta", "1.0.0", true)]
  }

  /** A run from empty tables, in which every operation goes through: the bot moved to another name at the same
      version keeps referring to the row of the first name. */
  lemma RenamingKeepsTheStaleRow()
    ensures Admissible(Tables([], []), Renaming())
    ensures Run(Tables([], []), Renaming()[..3]) == TwoNames() && Inv(TwoNames()) && Matched(TwoNames())
    ensures Refusal(TwoNames(), Renaming()[3]).None?
    ensures Run(Tables([], []), Renaming()) == Next(TwoNames(), Renaming()[3])
    ensures !Matched(Run(Tables([], []), Renaming()))
  {
    var e, ops := Tables([], []), Renaming();
    TwoNamesAreInOrder();
    RenamingSpoils();
    TwoNamesAreReached();
    LastOfRun(e, ops[..3], ops[3]);
    assert ops[..3] + [ops[3]] == ops;
  }

  lemma {:induction false} LastOfRun(t: Tables, ops: seq<Operation>, op: Operation)
    ensures Run(t, ops + [op]) == Next(Run(t, ops), op)
    ensures Admissible(t, ops) && Novel(Run(t, ops), op) ==> Admissible(t, ops + [op])
    decreases |ops|
  {
    if ops == [] {
      assert ([] + [op])[1..] == [];
    } else {
      assert (ops + [op])[1..] == ops[1..] + [op];
      LastOfRun(Next(t, ops[0]), ops[1..], op);
    }
  }

  lemma FirstOperation()
    ensures var e, op, a := Tables([], []), Renaming()[0], Row("a", "u", "alpha", "1.0.0", 1);
      Novel(e, op) && Next(e, op) == Tables([a], [])
  {
    ParseOfOne();
    Published(Tables([], []), Renaming()[0]);
  }

  lemma SecondOperation()
    ensures var op, a, b := Renaming()[1], Row("a", "u", "alpha", "1.0.0", 1), Row("b", "u", "beta", "1.0.0", 2);
      Novel(Tables([a], []), op) && Next(Tables([a], []), op) == Tables([a, b], [])
  {
    ParseOfOne();
    var a := Row("a", "u", "alpha", "1.0.0", 1);
    assert forall r :: r in [a] ==> r.name != "beta";
    Published(Tables([a], []), Renaming()[1]);
  }

  lemma Published(t: Tables, op: Operation)
    requires op.Create? && HasPattern(op.version) && op.wellFormed && op.zipped
    requires forall r :: r in t.rows ==> r.name != op.name
    ensures Next(t, op) == Tables(t.rows + [Row(op.id, op.userId, op.name, op.version, op.at)], t.instances)
  {
  }

  lemma ThirdOperation()
    ensures var t := Tables(TwoNames().rows, []); Novel(t, Renaming()[2]) && Next(t, Renaming()[2]) == TwoNames()
  {
    ParseOfOne();
    var rows := TwoNames().rows;
    assert rows[0] in rows && Find(rows, "alpha", "1.0.0") == Some(rows[0]);
  }

  lemma TwoNamesAreReached()
    ensures Run(Tables([], []), Renaming()[..3]) == TwoNames()
    ensures Admissible(Tables([], []), Renaming())
  {
    var ops := Renaming();
    ThreeOperations();
    ReachedByThree(Tables([], []), ops, TwoNames());
  }

  lemma ReachedByThree(t: Tables, ops: seq<Operation>, target: Tables)
    requires |ops| == 4
    requires var first := Next(t, ops[0]);
      var second := Next(first, ops[1]);
      Novel(t, ops[0]) && Novel(first, ops[1]) && Novel(second, ops[2]) && Next(second, ops[2]) == target
    requires Novel(target, ops[3])
    ensures Run(t, ops[..3]) == target && Admissible(t, ops)
  {
    RunOfThree(t, ops[0], ops[1], ops[2]);
    assert ops[..3] == [ops[0], ops[1], ops[2]];
    LastOfRun(t, ops[..3], ops[3]);
    assert ops[..3] + [ops[3]] == ops;
  }

  lemma ThreeOperations()
    ensures var e, ops := Tables([], []), Renaming();
      var first := Next(e, ops[0]);
      var second := Next(first, ops[1]);
      Novel(e, ops[0]) && Novel(first, ops[1]) && Novel(second, ops[2]) && Next(second, ops[2]) == TwoNames()
  {
    FirstOperation();
    SecondOperation();
    ThirdOperation();
  }

  lemma RunOfThree(t: Tables, a: Operation, b: Operation, c: Operation)
    ensures Run(t, [a, b, c]) == Next(Next(Next(t, a), b), c)
    ensures Novel(t, a) && Novel(Next(t, a), b) && Novel(Next(Next(t, a), b), c) ==> Admissible(t, [a, b, c])
  {
    assert [a, b, c][1..] == [b, c] && [b, c][1..] == [c] && [c][1..] == [];
    assert Run(Next(Next(t, a), b), [c]) == Next(Next(Next(t, a), b), c);
    assert Run(Next(t, a), [b, c]) == Run(Next(Next(t, a), b), [c]);
    assert Novel(Next(Next(t, a), b), c) ==> Admissible(Next(Next(t, a), b), [c]);
  }

  lemma RenamingSpoils()
    ensures var op := Renaming()[3]; Refusal(TwoNames(), op).None? && !Matched(Next(TwoNames(), op))
  {
    var bot := Instance("i", "u", "alpha", "1.0.0", "a");
    var t, op := TwoNames(), Renaming()[3];
    TwoNamesAreInOrder();
    assert bot in t.instances && FindInstance(t.instances, "u", "i") == Some(bot);
    UpdateMatchesExactlyWhen(t, op);
    var moved := Moved(t.rows, bot, "beta", "1.0.0");
    assert Next(t, op).instances[0] == moved;
    assert moved in Next(t, op).instances && !Matches(moved, Next(t, op).rows);
  }

  /** Two bots of one user at the same version, and an instance of the first. */
  function TwoNames(): Tables {
    Tables([Row("a", "u", "alpha", "1.0.0", 1), Row("b", "u", "beta", "1.0.0", 2)],
           [Instance("i", "u", "alpha", "1.0.0", "a")])
  }

  lemma TwoNamesAreInOrder()
    ensures Inv(TwoNames()) && Matched(TwoNames())
    ensures Parse("1.0.0").Some? && Find(TwoNames().rows, "beta", "1.0.0").Some?
  {
    ParseOfOne();
    var rows := TwoNames().rows;
    assert rows[0] in rows && rows[1] in rows;
    assert Matches(TwoNames().instances[0], rows) && Refers(TwoNames().instances[0], rows);
  }

  /** While references match, a version can be deleted by its owner exactly when nothing deployed has its name
      and version. */
  lemma DeletionGoesThroughExactlyWhen(t: Tables, op: Operation, r: Row)
    requires Inv(t) && Matched(t) && op.DeleteVersion?
    requires r in t.rows && r.name == op.name && r.version == op.version
    ensures Refusal(t, op).None? <==>
      op.userId == r.userId && forall b :: b in t.instances ==> !(b.name == op.name && b.version == op.version)
    ensures Refusal(t, op).None? ==> forall q :: q in Next(t, op).rows <==> q in t.rows && q != r
  {
    LatestIsMaximum(t.rows, op.name);
    var found := Find(t.rows, op.name, op.version).value;
    SameIdSameRow(t.rows, found, r);
    forall b | b in t.instances
      ensures b.customBotId == r.id <==> b.name == op.name && b.version == op.version
    {
      var held :| held in t.rows && held.id == b.customBotId && held.name == b.name && held.version == b.version;
      if b.customBotId == r.id || (b.name == op.name && b.version == op.version) {
        SameIdSameRow(t.rows, held, r);
      }
    }
    forall q | q in t.rows && q.id == r.id ensures q == r {
      SameIdSameRow(t.rows, q, r);
    }
  }

  /** Deleting a name takes every row of that name and no other. */
  lemma DeleteAllIsComplete(t: Tables, op: Operation)
    requires Inv(t) && op.DeleteAll? && Refusal(t, op).None?
    ensures forall r :: r in Next(t, op).rows <==> r in t.rows && r.name != op.name
    ensures forall b :: b in t.instances ==> forall r :: r in t.rows && r.name == op.name ==> b.customBotId != r.id
  {
    LatestIsMaximum(t.rows, op.name);
  }

  // ---------- the two services ----------

  /** CustomBotService and BotService over one database. */
  class BotServices {
    var rows: seq<Row>
    var instances: seq<Instance>

    constructor ()
      ensures Now() == Tables([], []) && Inv(Now()) && Matched(Now())
    {
      rows, instances := [], [];
    }

    function Now(): Tables
      reads this
    {
      Tables(rows, instances)
    }

    method CreateCustomBot(userId: string, name: string, version: string, wellFormed: bool, zipped: bool,
                           id: string, at: nat) returns (error: Option<ServiceError>)
      requires Inv(Now()) && Novel(Now(), Operation.Create(userId, name, version, wellFormed, zipped, id, at))
      modifies this
      ensures var op := Operation.Create(userId, name, version, wellFormed, zipped, id, at);
        error == old(Refusal(Now(), op)) && Now() == old(Next(Now(), op)) && Inv(Now())
    {
      ghost var op := Operation.Create(userId, name, version, wellFormed, zipped, id, at);
      StepKeepsInv(Now(), op);
      if !HasPattern(version) || !wellFormed {
        return Some(Rejected);
      }
      var latest := Latest(rows, name);
      if latest.Some? {
        return Some(AlreadyExists);
      }
      if !zipped {
        return Some(Rejected);
      }
      rows := rows + [Row(id, userId, name, version, at)];
      error := None;
    }

    method UpdateCustomBot(userId: string, name: string, version: string, wellFormed: bool, zipped: bool,
                           id: string, at: nat) returns (error: Option<ServiceError>)
      requires Inv(Now()) && Novel(Now(), Operation.Update(userId, name, version, wellFormed, zipped, id, at))
      modifies this
      ensures var op := Operation.Update(userId, name, version, wellFormed, zipped, id, at);
        error == old(Refusal(Now(), op)) && Now() == old(Next(Now(), op)) && Inv(Now())
    {
      ghost var op := Operation.Update(userId, name, version, wellFormed, zipped, id, at);
      StepKeepsInv(Now(), op);
      if !HasPattern(version) || !wellFormed {
        return Some(Rejected);
      }
      var latest := Latest(rows, name);
      if latest.None? {
        return Some(Missing);
      }
      if latest.value.userId != userId {
        return Some(NotOwner);
      }
      var newer := IsNewer(latest.value.version, version);
      if newer.None? {
        return Some(Rejected);
      }
      if !newer.value {
        return Some(NotNewer);
      }
      if Find(rows, name, version).Some? {
        return Some(AlreadyExists);
      }
      if !zipped {
        return Some(Rejected);
      }
      rows := rows + [Row(id, userId, name, version, at)];
      error := None;
    }

    method DeleteVersion(userId: string, name: string, version: string) returns (error: Option<ServiceError>)
      requires Inv(Now())
      modifies this
      ensures var op := Operation.DeleteVersion(userId, name, version);
        error == old(Refusal(Now(), op)) && Now() == old(Next(Now(), op)) && Inv(Now())
    {
      ghost var op := Operation.DeleteVersion(userId, name, version);
      StepKeepsInv(Now(), op);
      error := CheckOwner(rows, userId, name);
      if error.Some? {
        return;
      }
      var found := Find(rows, name, version);
      if found.None? {
        return Some(Missing);
      }
      var id := found.value.id;
      if Count(instances, id) > 0 {
        return Some(InUse);
      }
      rows := Without(rows, (r: Row) => r.userId == userId && r.id == id);
    }

    /** One pass over the instances counts those of every id asked for. */
    method CountInstances(ids: seq<string>) returns (counts: map<string, nat>)
      ensures forall id :: id in counts <==> id in ids
      ensures forall id :: id in counts ==> counts[id] == Count(instances, id)
    {
      counts := ZeroCounts(ids);
      var k := 0;
      while k < |instances|
        invariant 0 <= k <= |instances|
        invariant AreCounts(counts, ids, instances[..k])
      {
        var id := instances[k].customBotId;
        OneMoreCounted(counts, ids, instances, k);
        if id in ids {
          counts := counts[id := counts[id] + 1];
        }
        k := k + 1;
      }
      AllCounted(counts, ids, instances);
    }

    method ZeroCounts(ids: seq<string>) returns (counts: map<string, nat>)
      ensures AreCounts(counts, ids, [])
    {
      counts := map[];
      var k := 0;
      while k < |ids|
        invariant 0 <= k <= |ids|
        invariant forall id :: id in counts <==> id in ids[..k]
        invariant forall id :: id in counts ==> counts[id] == 0
      {
        counts := counts[ids[k] := 0];
        k := k + 1;
      }
      assert ids[..k] == ids;
    }

    /** The ids of the rows of a name. */
    method IdsOf(name: string) returns (ids: seq<string>)
      ensures forall id :: id in ids <==> exists r :: r in rows && r.name == name && r.id == id
    {
      ids := [];
      var k := 0;
      while k < |rows|
        invariant 0 <= k <= |rows|
        invariant forall id :: id in ids <==> exists r :: r in rows[..k] && r.name == name && r.id == id
      {
        assert rows[..k + 1] == rows[..k] + [rows[k]];
        if rows[k].name == name {
          ids := ids + [rows[k].id];
        }
        k := k + 1;
      }
      assert rows[..k] == rows;
    }

    method AnyInUse(name: string) returns (used: bool)
      ensures used <==> exists r :: r in rows && r.name == name && InUseBy(instances, r.id)
    {
      var ids := IdsOf(name);
      var counts := CountInstances(ids);
      used := exists id :: id in counts && counts[id] > 0;
      if r :| r in rows && r.name == name && InUseBy(instances, r.id) {
        assert r.id in counts;
      }
    }

    method DeleteAllVersions(userId: string, name: string) returns (error: Option<ServiceError>)
      requires Inv(Now())
      modifies this
      ensures var op := DeleteAll(userId, name);
        error == old(Refusal(Now(), op)) && Now() == old(Next(Now(), op)) && Inv(Now())
    {
      ghost var op := DeleteAll(userId, name);
      StepKeepsInv(Now(), op);
      error := CheckOwner(rows, userId, name);
      if error.Some? {
        return;
      }
      var used := AnyInUse(name);
      if used {
        return Some(InUse);
      }
      rows := Without(rows, (r: Row) => r.userId == userId && r.name == name);
    }

    method Create(bot: string, userId: string, name: string, version: string, accepted: bool)
      returns (error: Option<ServiceError>)
      requires Inv(Now()) && Novel(Now(), Deploy(bot, userId, name, version, accepted))
      modifies this
      ensures var op := Deploy(bot, userId, name, version, accepted);
        error == old(Refusal(Now(), op)) && Now() == old(Next(Now(), op)) && Inv(Now())
    {
      ghost var op := Deploy(bot, userId, name, version, accepted);
      StepKeepsInv(Now(), op);
      error := TypeRefusal(rows, name, version, accepted);
      if error.None? {
        instances := instances + [Instance(bot, userId, name, version, Find(rows, name, version).value.id)];
      }
    }

    method Update(bot: string, userId: string, name: string, version: string, accepted: bool)
      returns (error: Option<ServiceError>)
      requires Inv(Now())
      modifies this
      ensures var op := UpdateInstance(bot, userId, name, version, accepted);
        error == old(Refusal(Now(), op)) && Now() == old(Next(Now(), op)) && Inv(Now())
    {
      ghost var op := UpdateInstance(bot, userId, name, version, accepted);
      StepKeepsInv(Now(), op);
      error := TypeRefusal(rows, name, version, accepted);
      if error.Some? {
        return;
      }
      var row := Find(rows, name, version).value;
      var current := FindInstance(instances, userId, bot);
      if current.None? {
        return Some(Missing);
      }
      var from, to := Parse(current.value.version), Parse(version);
      if from.None? {
        return Some(Rejected);
      }
      if from.value.major != to.value.major {
        return Some(MajorChange);
      }
      var customBotId := if from != to then row.id else current.value.customBotId;
      instances := Rewritten(instances, Instance(bot, userId, name, version, customBotId));
    }

    /** Also reports the version row that nothing refers to any more. */
    method Remove(bot: string, userId: string) returns (error: Option<ServiceError>, orphan: Option<Row>)
      requires Inv(Now())
      modifies this
      ensures var op := RemoveInstance(bot, userId);
        error == old(Refusal(Now(), op)) && Now() == old(Next(Now(), op)) && Inv(Now())
      ensures error.Some? ==> orphan.None?
      ensures error.None? ==>
        var removed := old(FindInstance(instances, userId, bot).value);
        if InUseBy(instances, removed.customBotId) then orphan.None?
        else orphan.Some? && orphan.value in rows && orphan.value.id == removed.customBotId
    {
      ghost var op := RemoveInstance(bot, userId);
      StepKeepsInv(Now(), op);
      orphan := None;
      var current := FindInstance(instances, userId, bot);
      if current.None? {
        return Some(Missing), None;
      }
      assert Refers(current.value, rows);
      instances := Without(instances, (b: Instance) => b.userId == userId && b.id == bot);
      error := None;
      var row := FindById(rows, current.value.customBotId);
      if row.Some? && Count(instances, current.value.customBotId) == 0 {
        orphan := row;
      }
    }
  }
}
