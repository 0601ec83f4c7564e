/**
 * GenericControllers: the CRUD controllers of the older system. Every record has an id, a 32-bit
 * status word and a create date. An insert resets all three whatever the client sent; an update
 * keeps the stored id and create date; a delete only sets the Deleted bit of the status. Every
 * successful action is written to the action log when logging is on. Derived controllers hook
 * checks into the pipeline (AccessController's read, update and delete checks, the category
 * parent check).
 */
module GenericControllers {
  import opened Wrappers
  import opened Seqs
  import opened Numbers
  import opened Permissions
  import Views

  /** GenericModel: a stored record and its controller-specific fields. */
  datatype GenericModel<D> = GenericModel(id: int, status: bv32, createDate: int, data: D)

  /** GenericView: what a client sends and receives; it has no status. */
  datatype GenericView<D> = GenericView(id: int, createDate: int, data: D)

  /** A row of the users table, as the controllers read it. */
  datatype User = User(id: int, role: Role)

  datatype LogAction = View | Create | Update | Delete

  /** The field SetLogField fills with the id acted on; each controller names its own. */
  datatype LogField = ContentField | CategoryField | UserField

  datatype ActionLog = ActionLog(
    action: LogAction, createDate: int, actionUserId: Option<int>,
    contentId: Option<int>, categoryId: Option<int>, userId: Option<int>)

  // ---------------------------------------------------------------- mapping

  /** The mapper from model to view: the fields of the same name; the status is not shown. */
  function ToView<D(!new)>(m: GenericModel<D>): (v: GenericView<D>)
    ensures v.id == m.id && v.createDate == m.createDate && v.data == m.data
  {
    GenericView(m.id, m.createDate, m.data)
  }

  /** Post_ConvertItem: a new model from the view, with the default status 0. */
  function NewModel<D(!new)>(v: GenericView<D>): (m: GenericModel<D>)
    ensures ToView(m) == v && m.status == 0
  {
    GenericModel(v.id, 0, v.createDate, v.data)
  }

  /** Put_ConvertItem: the view's fields mapped into the existing model, whose status stays. */
  function MapInto<D(!new)>(v: GenericView<D>, existing: GenericModel<D>): (m: GenericModel<D>)
    ensures ToView(m) == v && m.status == existing.status
  {
    existing.(id := v.id, createDate := v.createDate, data := v.data)
  }

  // ---------------------------------------------------------------- lifecycle rules

  /** The base Post_PreInsertCheck: creation now, id 0 (the store assigns one) and status 0. */
  function PreInsertCheck<D(!new)>(m: GenericModel<D>, now: int): (r: GenericModel<D>)
    ensures r.id == 0 && r.status == 0 && r.createDate == now && r.data == m.data
  {
    m.(createDate := now, id := 0, status := 0)
  }

  /** Whatever id, create date and status a client sends, a new record depends on its fields only. */
  lemma InsertIgnoresClient<D(!new)>(a: GenericView<D>, b: GenericView<D>, now: int)
    requires a.data == b.data
    ensures PreInsertCheck(NewModel(a), now) == PreInsertCheck(NewModel(b), now)
    ensures PreInsertCheck(PreInsertCheck(NewModel(a), now), now) == PreInsertCheck(NewModel(a), now)
  {
  }

  /** GenericController.Put_PreConversionCheck: the stored create date and id replace the client's. */
  function PutPreConversionCheck<D(!new)>(item: GenericView<D>, existing: GenericModel<D>): (r: GenericView<D>)
    ensures r.id == existing.id && r.createDate == existing.createDate && r.data == item.data
  {
    item.(createDate := existing.createDate, id := existing.id)
  }

  /** An update changes the controller's fields of a record and nothing else. */
  lemma UpdateKeepsIdentity<D(!new)>(item: GenericView<D>, existing: GenericModel<D>)
    ensures MapInto(PutPreConversionCheck(item, existing), existing) == existing.(data := item.data)
  {
  }

  /** The soft delete `status |= Deleted`. */
  function SoftDelete(status: bv32, deleted: bv32): (r: bv32)
    ensures r & deleted == deleted
    ensures r & !deleted == status & !deleted
  {
    status | deleted
  }

  /** Deleting a record whose Deleted bit is already set leaves its status as it is. */
  lemma SoftDeleteNoChange(status: bv32, deleted: bv32)
    requires status & deleted == deleted
    ensures SoftDelete(status, deleted) == status
  {
  }

  /** Deleting twice leaves the status as deleting once does. */
  lemma SoftDeleteIdempotent(status: bv32, deleted: bv32)
    ensures SoftDelete(SoftDelete(status, deleted), deleted) == SoftDelete(status, deleted)
  {
  }

  // ---------------------------------------------------------------- the requester

  /** A letter A-Z folded to a-z; every other character as it is. */
  function FoldAscii(c: char): (d: char)
    ensures 'A' <= c <= 'Z' ==> d as int == c as int + 32
    ensures !('A' <= c <= 'Z') ==> d == c
  {
    if 'A' <= c <= 'Z' then (c as int + 32) as char else c
  }

  /** Claim types compare ordinally, ignoring case (here: the case of the ASCII letters). */
  predicate SameClaimType(a: string, b: string)
  {
    |a| == |b| && forall i :: 0 <= i < |a| ==> FoldAscii(a[i]) == FoldAscii(b[i])
  }

  /** A claim type differing only in the case of its letters is the same claim type. */
  lemma ClaimTypeIgnoresCase()
    ensures SameClaimType("UID", "uid") && !SameClaimType("uid", "uidx")
  {
    assert FoldAscii('U') == 'u' && FoldAscii('I') == 'i' && FoldAscii('D') == 'd';
  }

  /** ClaimsPrincipal.FindFirstValue: the value of the first claim of that type. */
  function FindFirstValue(claims: seq<(string, string)>, field: string): (r: Option<string>)
    ensures r.None? <==> forall i :: 0 <= i < |claims| ==> !SameClaimType(claims[i].0, field)
    ensures r.Some? ==> exists i :: (0 <= i < |claims| && SameClaimType(claims[i].0, field) && claims[i].1 == r.value &&
      forall j :: 0 <= j < i ==> !SameClaimType(claims[j].0, field))
  {
    if claims == [] then None
    else if SameClaimType(claims[0].0, field) then Some(claims[0].1)
    else
      var r := FindFirstValue(claims[1..], field);
      assert forall i :: 1 <= i < |claims| ==> claims[i] == claims[1..][i - 1];
      if r.Some? then
        ghost var k :| 0 <= k < |claims[1..]| && SameClaimType(claims[1..][k].0, field) && claims[1..][k].1 == r.value &&
          forall j :: 0 <= j < k ==> !SameClaimType(claims[1..][j].0, field);
        assert claims[k + 1] == claims[1..][k] && forall j :: 0 <= j < k + 1 ==> !SameClaimType(claims[j].0, field);
        r
      else r
  }

  /**
   * GetCurrentField: the requester's claim of that type; no authenticated user, or no such
   * claim, is an invalid operation.
   */
  function GetCurrentField(user: Option<seq<(string, string)>>, field: string): (r: Result<string>)
    ensures user.None? ==> r == Failure(InvalidOperation("User is not set! Maybe there was no auth?"))
    ensures user.Some? && FindFirstValue(user.value, field).None? ==>
      r == Failure(InvalidOperation("No " + field + " field in User! Maybe there was no auth?"))
    ensures r.Success? <==> user.Some? && FindFirstValue(user.value, field).Some?
    ensures r.Success? ==> Some(r.value) == FindFirstValue(user.value, field)
  {
    match user
    case None => Failure(InvalidOperation("User is not set! Maybe there was no auth?"))
    case Some(claims) =>
      match FindFirstValue(claims, field)
      case None => Failure(InvalidOperation("No " + field + " field in User! Maybe there was no auth?"))
      case Some(value) => Success(value)
  }

  /** GetCurrentUid: the parsed uid claim; -1 when there is none or it does not parse as a `long`. */
  function GetCurrentUid(user: Option<seq<(string, string)>>): (uid: int)
    ensures InLong(uid)
    ensures GetCurrentField(user, "uid").Failure? ==> uid == -1
    ensures GetCurrentField(user, "uid").Success? && ParseLong(GetCurrentField(user, "uid").value).None? ==> uid == -1
    ensures GetCurrentField(user, "uid").Success? && ParseLong(GetCurrentField(user, "uid").value).Some? ==>
      uid == ParseLong(GetCurrentField(user, "uid").value).value
  {
    match GetCurrentField(user, "uid")
    case Failure(_) => -1
    case Success(value) =>
      match ParseLong(value)
      case None => -1
      case Some(n) => n
  }

  /** A uid claim printed from a `long` reads back as that number. */
  lemma UidOfPrintedClaim(claims: seq<(string, string)>, uid: int)
    requires InLong(uid) && FindFirstValue(claims, "uid") == Some(LongToString(uid))
    ensures GetCurrentUid(Some(claims)) == uid
  {
    ParseOfToString(uid);
  }

  /** An unauthenticated requester, or one without a uid claim in any letter case, has uid -1. */
  lemma NoUidClaim(user: Option<seq<(string, string)>>)
    requires user.None? || forall i :: 0 <= i < |user.value| ==> !SameClaimType(user.value[i].0, "uid")
    ensures GetCurrentUid(user) == -1
  {
  }

  /** Users.FindAsync: the user row with that id. */
  function FindUser(users: seq<User>, id: int): (r: Option<User>)
    ensures r.Some? ==> r.value in users && r.value.id == id
    ensures r.None? <==> forall u :: u in users ==> u.id != id
  {
    if users == [] then None
    else if users[0].id == id then Some(users[0])
    else FindUser(users[1..], id)
  }

  /** SetLogField: the controller's own id field of the log record. */
  function SetLogField(log: ActionLog, field: LogField, id: int): (r: ActionLog)
    ensures r.action == log.action && r.createDate == log.createDate && r.actionUserId == log.actionUserId
    ensures r.contentId == (if field.ContentField? then Some(id) else log.contentId)
    ensures r.categoryId == (if field.CategoryField? then Some(id) else log.categoryId)
    ensures r.userId == (if field.UserField? then Some(id) else log.userId)
  {
    match field
    case ContentField => log.(contentId := Some(id))
    case CategoryField => log.(categoryId := Some(id))
    case UserField => log.(userId := Some(id))
  }

  /** The log record LogAct writes: the action, the time, the acting user unless negative, the id. */
  function LogRecord(action: LogAction, now: int, uid: int, field: LogField, id: int): (log: ActionLog)
    ensures log.action == action && log.createDate == now
    ensures log.actionUserId.None? <==> uid < 0
    ensures log.actionUserId.Some? ==> log.actionUserId.value == uid
    ensures log.contentId.Some? <==> field.ContentField?
    ensures log.categoryId.Some? <==> field.CategoryField?
    ensures log.userId.Some? <==> field.UserField?
    ensures log.contentId.Some? ==> log.contentId.value == id
    ensures log.categoryId.Some? ==> log.categoryId.value == id
    ensures log.userId.Some? ==> log.userId.value == id
  {
    SetLogField(ActionLog(action, now, if uid < 0 then None else Some(uid), None, None, None), field, id)
  }

  // ---------------------------------------------------------------- the hooks

  /**
   * The checks a derived controller hooks into the pipeline, each Pass in the base controller:
   * Post_PreConversionCheck, the extra part of Post_PreInsertCheck (given the stored records),
   * the extra part of Put_PreConversionCheck (given the current user and the users table),
   * GetSingle_PreResultCheck, Delete_PreDeleteCheck, and the filter of Get_GetBase.
   */
  datatype Hooks<!D> = Hooks(
    postCheck: GenericView<D> -> Outcome,
    insertCheck: (seq<GenericModel<D>>, GenericModel<D>) -> Outcome,
    putCheck: (GenericView<D>, GenericModel<D>, Option<User>, seq<User>) -> Outcome,
    readCheck: (GenericModel<D>, Option<User>) -> Outcome,
    deleteCheck: (GenericModel<D>, Option<User>) -> Outcome,
    listable: (GenericModel<D>, Option<User>) -> bool)

  /** The hooks of a controller that overrides none of them. */
  function BaseHooks<D(!new)>(): (h: Hooks<D>)
    ensures forall v :: h.postCheck(v) == Pass
    ensures forall s, m :: h.insertCheck(s, m) == Pass
    ensures forall v, m, u, us :: h.putCheck(v, m, u, us) == Pass
    ensures forall m, u :: h.readCheck(m, u) == Pass && h.deleteCheck(m, u) == Pass && h.listable(m, u)
  {
    Hooks((v: GenericView<D>) => Pass, (s: seq<GenericModel<D>>, m: GenericModel<D>) => Pass,
          (v: GenericView<D>, m: GenericModel<D>, u: Option<User>, us: seq<User>) => Pass,
          (m: GenericModel<D>, u: Option<User>) => Pass, (m: GenericModel<D>, u: Option<User>) => Pass,
          (m: GenericModel<D>, u: Option<User>) => true)
  }

  /** The list filter as a function of the record alone, shared by every use. */
  function ListableBy<D(!new)>(hooks: Hooks<D>, user: Option<User>): (p: GenericModel<D> -> bool)
  {
    (m: GenericModel<D>) => hooks.listable(m, user)
  }

  /** The index of the record with that id, or -1. */
  function IndexOfId<D(!new)>(items: seq<GenericModel<D>>, id: int): (i: int)
    ensures -1 <= i < |items|
    ensures 0 <= i ==> items[i].id == id
    ensures i < 0 <==> forall k :: 0 <= k < |items| ==> items[k].id != id
  {
    if items == [] then -1
    else if items[|items| - 1].id == id then |items| - 1
    else IndexOfId(items[..|items| - 1], id)
  }

  /**
   * Get: the listable records, then the query; a query the service rejects as an invalid
   * operation is a bad request with its message, and any other fault passes through.
   */
  function GetList<D(!new)>(base: seq<GenericModel<D>>, hooks: Hooks<D>, user: Option<User>,
                      applyQuery: seq<GenericModel<D>> -> Result<seq<GenericModel<D>>>): (r: Result<seq<GenericView<D>>>)
    ensures var q := applyQuery(Filter(base, ListableBy(hooks, user)));
      && (q.Success? ==> r == Success(Map(q.value, ToView)))
      && (q.Failure? && q.error.InvalidOperation? ==> r == Failure(BadRequest(q.error.message)))
      && (q.Failure? && !q.error.InvalidOperation? ==> r == Failure(q.error))
  {
    match applyQuery(Filter(base, ListableBy(hooks, user)))
    case Success(q) => Success(Map(q, ToView))
    case Failure(InvalidOperation(message)) => Failure(BadRequest(message))
    case Failure(e) => Failure(e)
  }

  /**
   * GetGenericCollectionResult: the items, the links (none are ever passed, so an empty list) and
   * the requester's claims as a dictionary. `ToDictionary` throws on a repeated claim type, and
   * with no User at all `User.Claims` is a null dereference.
   */
  datatype CollectionResult<V> = CollectionResult(collection: seq<V>, links: seq<string>, claims: Views.Dict)

  function CollectionResultOf<V>(items: seq<V>, user: Option<seq<(string, string)>>): (r: Result<CollectionResult<V>>)
    ensures user.None? ==> r == Failure(NullReference)
    ensures user.Some? ==> (r.Success? <==> Views.IsDict(user.value))
    ensures user.Some? && r.Failure? ==> r.error == DuplicateKey
    ensures r.Success? ==> r.value.collection == items && r.value.links == [] && r.value.claims == user.value
  {
    match user
    case None => Failure(NullReference)
    case Some(claims) =>
      Views.DictFromPairs(claims);
      match Views.DictAddAll([], claims)
      case Failure(e) => Failure(e)
      case Success(d) => Success(CollectionResult(items, [], d))
  }

  /**
   * Two claims of the same type make the collection result throw, while claim types differing only
   * in letter case are distinct dictionary keys (ToDictionary compares them ordinally).
   */
  lemma RepeatedClaimTypeFaults<V>(items: seq<V>)
    ensures CollectionResultOf(items, Some([("uid", "1"), ("uid", "2")])) == Failure(DuplicateKey)
    ensures CollectionResultOf(items, Some([("uid", "1"), ("UID", "2")])).Success?
  {
  }

  /** The base records a listing starts from are stored records its filter accepts, all of them. */
  lemma ListedExactly<D(!new)>(base: seq<GenericModel<D>>, hooks: Hooks<D>, user: Option<User>)
    ensures forall m :: m in Filter(base, ListableBy(hooks, user)) <==> m in base && hooks.listable(m, user)
  {
  }

  // ---------------------------------------------------------------- the controller

  /**
   * One controller over its table. The creation time is a parameter of each action, the store
   * assigns ids in order, and saving never fails.
   */
  class GenericController<D(!new)> {
    var items: seq<GenericModel<D>>
    var nextId: int
    var logs: seq<ActionLog>
    const users: seq<User>
    const grants: Grants
    const user: Option<seq<(string, string)>>
    const doActionLog: bool
    const deleted: bv32
    const logField: LogField
    const hooks: Hooks<D>

    ghost predicate Valid()
      reads this
    {
      && 0 < nextId
      && (forall i :: 0 <= i < |items| ==> 0 < items[i].id < nextId)
      && (forall i, j :: 0 <= i < j < |items| ==> items[i].id != items[j].id)
    }

    constructor (users: seq<User>, grants: Grants, user: Option<seq<(string, string)>>, doActionLog: bool,
                 deleted: bv32, logField: LogField, hooks: Hooks<D>)
      ensures Valid() && items == [] && logs == [] && nextId == 1
      ensures this.users == users && this.grants == grants && this.user == user
      ensures this.doActionLog == doActionLog && this.deleted == deleted && this.logField == logField
    {
      this.users, this.grants, this.user := users, grants, user;
      this.doActionLog, this.deleted, this.logField, this.hooks := doActionLog, deleted, logField, hooks;
      items, nextId, logs := [], 1, [];
    }

    /** GetCurrentUserAsync: the user row of the requester's uid. */
    function CurrentUser(): (r: Option<User>)
      ensures r.Some? ==> r.value in users && r.value.id == GetCurrentUid(user)
    {
      FindUser(users, GetCurrentUid(user))
    }

    /** CanUserAsync: the requester has a user row whose role holds the permission. */
    function CanUserAsync(p: Permission): (r: bool)
      ensures r <==> CurrentUser().Some? && Granted(grants, CurrentUser().value.role, p)
    {
      match CurrentUser()
      case None => false
      case Some(u) => CanDo(grants, u.role, p)
    }

    /** Without a uid claim, and with no user row under a negative id, the requester can do nothing. */
    lemma AnonymousCannot(p: Permission)
      requires user.None? || forall i :: 0 <= i < |user.value| ==> !SameClaimType(user.value[i].0, "uid")
      requires forall u :: u in users ==> u.id >= 0
      ensures !CanUserAsync(p)
    {
      NoUidClaim(user);
    }

    /** GetExisting: the record with that id; none is NotFound. */
    function GetExisting(id: int): (r: Result<GenericModel<D>>)
      reads this
      ensures r.Success? <==> exists k :: 0 <= k < |items| && items[k].id == id
      ensures r.Success? ==> r.value in items && r.value.id == id
      ensures r.Failure? ==> r.error == NotFound
    {
      var i := IndexOfId(items, id);
      if i < 0 then Failure(NotFound) else Success(items[i])
    }

    /** What LogAct adds to the log: one record, or nothing when logging is off. */
    function LogOf(action: LogAction, id: int, now: int): (added: seq<ActionLog>)
      ensures !doActionLog ==> added == []
      ensures doActionLog ==> |added| == 1 && added[0].action == action && added[0].createDate == now
      ensures doActionLog ==> (added[0].actionUserId.None? <==> GetCurrentUid(user) < 0)
      ensures doActionLog ==> added[0] == LogRecord(action, now, GetCurrentUid(user), logField, id)
    {
      if doActionLog then [LogRecord(action, now, GetCurrentUid(user), logField, id)] else []
    }

    /** LogAct: nothing when logging is off; otherwise one record for the action. */
    method LogAct(action: LogAction, id: int, now: int)
      modifies this`logs
      ensures logs == old(logs) + LogOf(action, id, now)
    {
      if !doActionLog {
        return;
      }
      var log := ActionLog(action, now, None, None, None, None);
      var uid := GetCurrentUid(user);
      log := log.(actionUserId := Some(uid));
      if uid < 0 {
        log := log.(actionUserId := None);
      }
      log := SetLogField(log, logField, id);
      logs := logs + [log];
    }

    /**
     * Get: the listing wrapped in the collection result; a query fault comes first, then the
     * claims dictionary may throw. It reads the table and changes nothing.
     */
    function Get(applyQuery: seq<GenericModel<D>> -> Result<seq<GenericModel<D>>>): (r: Result<CollectionResult<GenericView<D>>>)
      reads this
      ensures var q := applyQuery(Filter(items, ListableBy(hooks, CurrentUser())));
        && (q.Failure? && q.error.InvalidOperation? ==> r == Failure(BadRequest(q.error.message)))
        && (q.Failure? && !q.error.InvalidOperation? ==> r == Failure(q.error))
        && (q.Success? ==> (r.Success? <==> user.Some? && Views.IsDict(user.value)))
        && (q.Success? && user.None? ==> r == Failure(NullReference))
        && (q.Success? && user.Some? && !Views.IsDict(user.value) ==> r == Failure(DuplicateKey))
      ensures var q := applyQuery(Filter(items, ListableBy(hooks, CurrentUser())));
        q.Success? && r.Success? ==>
          && r.value.claims == user.value && r.value.links == []
          && |r.value.collection| == |q.value|
          && forall i :: 0 <= i < |q.value| ==> r.value.collection[i] == ToView(q.value[i])
    {
      match GetList(items, hooks, CurrentUser(), applyQuery)
      case Failure(e) => Failure(e)
      case Success(views) => CollectionResultOf(views, user)
    }

    /**
     * GetSingle: a missing record is NotFound; one the read check refuses fails with its fault
     * and is not logged; otherwise the view is logged and returned.
     */
    method GetSingle(id: int, now: int) returns (r: Result<GenericView<D>>)
      modifies this`logs
      ensures GetExisting(id).Failure? ==> r == Failure(NotFound) && logs == old(logs)
      ensures GetExisting(id).Success? ==>
        var check := hooks.readCheck(GetExisting(id).value, CurrentUser());
        && (check.Fail? ==> r == Failure(check.error) && logs == old(logs))
        && (check.Pass? ==> r == Success(ToView(GetExisting(id).value)) && logs == old(logs) + LogOf(View, id, now))
    {
      var item := GetExisting(id);
      if item.Failure? {
        return Failure(NotFound);
      }
      var check := hooks.readCheck(item.value, CurrentUser());
      if check.Fail? {
        return Failure(check.error);
      }
      LogAct(View, id, now);
      r := Success(ToView(item.value));
    }

    /**
     * Post: the conversion check, the conversion, the insert normalisation and the derived
     * insert check, in that order; the record is then stored under the next id and logged.
     */
    method Post(item: GenericView<D>, now: int) returns (r: Result<GenericView<D>>)
      requires Valid()
      modifies this
      ensures Valid()
      ensures var normal := PreInsertCheck(NewModel(item), now);
        var pre := hooks.postCheck(item);
        var ins := hooks.insertCheck(old(items), normal);
        && (pre.Fail? ==> r == Failure(pre.error))
        && (pre.Pass? && ins.Fail? ==> r == Failure(ins.error))
        && (r.Failure? ==> items == old(items) && nextId == old(nextId) && logs == old(logs))
        && (pre.Pass? && ins.Pass? ==>
          && items == old(items) + [normal.(id := old(nextId))]
          && nextId == old(nextId) + 1
          && r == Success(ToView(normal.(id := old(nextId))))
          && logs == old(logs) + LogOf(Create, old(nextId), now))
    {
      var pre := hooks.postCheck(item);
      if pre.Fail? {
        return Failure(pre.error);
      }
      var newThing := NewModel(item);
      newThing := PreInsertCheck(newThing, now);
      var ins := hooks.insertCheck(items, newThing);
      if ins.Fail? {
        return Failure(ins.error);
      }
      newThing := newThing.(id := nextId);
      items, nextId := items + [newThing], nextId + 1;
      LogAct(Create, newThing.id, now);
      r := Success(ToView(newThing));
    }

    /**
     * Put: the record must exist; the client's id and create date are replaced by the stored
     * ones before the derived check; the view is then mapped into the record, which keeps its
     * status, and the update is logged.
     */
    method Put(id: int, item: GenericView<D>, now: int) returns (r: Result<GenericView<D>>, ghost i: int)
      requires Valid()
      modifies this
      ensures Valid() && nextId == old(nextId)
      ensures i == old(IndexOfId(items, id))
      ensures i < 0 ==> r == Failure(NotFound)
      ensures r.Failure? ==> items == old(items) && logs == old(logs)
      ensures 0 <= i ==>
        var existing := old(items)[i];
        var checked := PutPreConversionCheck(item, existing);
        var check := hooks.putCheck(checked, existing, CurrentUser(), users);
        && (check.Fail? ==> r == Failure(check.error))
        && (check.Pass? ==>
          && r == Success(checked)
          && items == old(items)[i := existing.(data := item.data)]
          && logs == old(logs) + LogOf(Update, id, now))
      ensures r.Success? ==> 0 <= i && r.value.id == id && r.value.createDate == old(items)[i].createDate
    {
      var k := IndexOfId(items, id);
      i := k;
      var existing := GetExisting(id);
      if existing.Failure? {
        return Failure(NotFound), i;
      }
      var checked := PutPreConversionCheck(item, existing.value);
      var check := hooks.putCheck(checked, existing.value, CurrentUser(), users);
      if check.Fail? {
        return Failure(check.error), i;
      }
      var updated := MapInto(checked, existing.value);
      UpdateKeepsIdentity(item, existing.value);
      items := items[k := updated];
      LogAct(Update, updated.id, now);
      r := Success(ToView(updated));
    }

    /**
     * Delete: the record must exist and pass the delete check; it is then kept with the Deleted
     * bit set in its status, and the deletion is logged.
     */
    method Delete(id: int, now: int) returns (r: Result<GenericView<D>>, ghost i: int)
      requires Valid()
      modifies this
      ensures Valid() && nextId == old(nextId) && |items| == |old(items)|
      ensures i == old(IndexOfId(items, id))
      ensures i < 0 ==> r == Failure(NotFound)
      ensures r.Failure? ==> items == old(items) && logs == old(logs)
      ensures 0 <= i ==>
        var existing := old(items)[i];
        var check := hooks.deleteCheck(existing, CurrentUser());
        && (check.Fail? ==> r == Failure(check.error))
        && (check.Pass? ==>
          && r == Success(ToView(existing))
          && items == old(items)[i := existing.(status := SoftDelete(existing.status, deleted))]
          && logs == old(logs) + LogOf(LogAction.Delete, id, now))
    {
      var k := IndexOfId(items, id);
      i := k;
      var existing := GetExisting(id);
      if existing.Failure? {
        return Failure(NotFound), i;
      }
      var check := hooks.deleteCheck(existing.value, CurrentUser());
      if check.Fail? {
        return Failure(check.error), i;
      }
      var marked := existing.value.(status := SoftDelete(existing.value.status, deleted));
      items := items[k := marked];
      LogAct(LogAction.Delete, marked.id, now);
      r := Success(ToView(marked));
    }
  }

  // ---------------------------------------------------------------- AccessController

  /**
   * The access service (not part of this model) as functions: the access-string format check,
   * the read, update and delete rules, and the user ids of a view's access list (the keys of
   * a dictionary, so distinct).
   */
  datatype AccessRules<!D> = AccessRules(
    formatOk: GenericView<D> -> bool,
    canRead: (GenericModel<D>, Option<User>) -> bool,
    canUpdate: (GenericModel<D>, Option<User>) -> bool,
    canDelete: (GenericModel<D>, Option<User>) -> bool,
    accessList: D -> seq<int>)

  /** CheckAccessFormat, which is all of AccessController.Post_PreConversionCheck. */
  function AccessPostCheck<D(!new)>(rules: AccessRules<D>, view: GenericView<D>): (r: Outcome)
    ensures r.Pass? <==> rules.formatOk(view)
    ensures r.Fail? ==> r.error == BadRequest("Malformed access string (CRUD)")
  {
    if !rules.formatOk(view) then Fail(BadRequest("Malformed access string (CRUD)")) else Pass
  }

  /** The users a query for the access list's ids finds. */
  function UsersIn(users: seq<User>, ids: seq<int>): (found: seq<User>)
  {
    Filter(users, (u: User) => u.id in ids)
  }

  /**
   * AccessController.Put_PreConversionCheck past the base part: the format, then the update
   * right, then, for a non-empty access list, as many users found as the list has entries.
   */
  function AccessPutCheck<D(!new)>(rules: AccessRules<D>, view: GenericView<D>, existing: GenericModel<D>,
                             user: Option<User>, users: seq<User>): (r: Outcome)
    ensures !rules.formatOk(view) ==> r == Fail(BadRequest("Malformed access string (CRUD)"))
    ensures rules.formatOk(view) && !rules.canUpdate(existing, user) ==>
      r == Fail(Unauthorized("You do not have permission to update this record"))
    ensures r.Pass? <==>
      && rules.formatOk(view) && rules.canUpdate(existing, user)
      && (|rules.accessList(view.data)| == 0 || |UsersIn(users, rules.accessList(view.data))| == |rules.accessList(view.data)|)
    ensures rules.formatOk(view) && rules.canUpdate(existing, user) && r.Fail? ==>
      r.error == BadRequest("Bad access list: nonexistent / duplicate user")
  {
    var ids := rules.accessList(view.data);
    if !rules.formatOk(view) then Fail(BadRequest("Malformed access string (CRUD)"))
    else if !rules.canUpdate(existing, user) then Fail(Unauthorized("You do not have permission to update this record"))
    else if |ids| > 0 && |UsersIn(users, ids)| != |ids| then Fail(BadRequest("Bad access list: nonexistent / duplicate user"))
    else Pass
  }

  /** Filtering keeps distinct elements distinct. */
  lemma {:induction false} FilterNoDuplicates<T(!new)>(s: seq<T>, p: T -> bool)
    requires NoDuplicates(s)
    ensures NoDuplicates(Filter(s, p))
  {
    if s != [] {
      FilterNoDuplicates(s[1..], p);
      assert forall j :: 0 < j < |s| ==> s[j] == s[1..][j - 1];
      assert s[0] !in s[1..];
    }
  }

  /** A sequence without duplicates has as many elements as its set. */
  lemma {:induction false} CardOfDistinct<T>(s: seq<T>)
    requires NoDuplicates(s)
    ensures |set x | x in s| == |s|
  {
    if s != [] {
      assert forall j :: 0 < j < |s| ==> s[j] == s[1..][j - 1];
      assert s[0] !in s[1..];
      CardOfDistinct(s[1..]);
      assert (set x | x in s) == (set x | x in s[1..]) + {s[0]};
    }
  }

  /**
   * With a users table keyed by id and an access list of distinct ids, as many users are found
   * as the list has entries exactly when every listed id names a user: the check rejects
   * nonexistent users, and duplicates cannot reach it.
   */
  lemma AccessListCountExactly(users: seq<User>, ids: seq<int>)
    requires forall a, b :: 0 <= a < b < |users| ==> users[a].id != users[b].id
    requires NoDuplicates(ids)
    ensures |UsersIn(users, ids)| == |ids| <==> forall k :: k in ids ==> exists u :: u in users && u.id == k
  {
    var found := UsersIn(users, ids);
    var foundIds := Map(found, (u: User) => u.id);
    FoundIdsDistinct(users, ids);
    CardOfDistinct(foundIds);
    CardOfDistinct(ids);
    var fs := set x | x in foundIds;
    var listed := set x | x in ids;
    assert fs <= listed by {
      forall k | k in fs ensures k in listed {
        FoundListed(users, ids, k);
      }
    }
    assert listed == fs + (listed - fs) && fs * (listed - fs) == {};
    if forall k :: k in ids ==> exists u :: u in users && u.id == k {
      forall k | k in listed ensures k in fs {
        var u :| u in users && u.id == k;
        NamedFound(users, ids, u);
      }
      assert listed - fs == {};
    } else {
      var k :| k in ids && !exists u :: u in users && u.id == k;
      assert k !in fs by {
        if k in fs {
          FoundListed(users, ids, k);
        }
      }
      assert k in listed - fs;
    }
  }

  /** The users found for an access list have distinct ids. */
  lemma FoundIdsDistinct(users: seq<User>, ids: seq<int>)
    requires forall a, b :: 0 <= a < b < |users| ==> users[a].id != users[b].id
    ensures NoDuplicates(Map(UsersIn(users, ids), (u: User) => u.id))
  {
    var foundIds := Map(UsersIn(users, ids), (u: User) => u.id);
    forall a, b | 0 <= a < b < |foundIds| ensures foundIds[a] != foundIds[b] {
      UsersInOrder(users, ids, a, b);
    }
  }

  /** A listed id that names a user is among the ids of the users found. */
  lemma NamedFound(users: seq<User>, ids: seq<int>, u: User)
    requires u in users && u.id in ids
    ensures u.id in Map(UsersIn(users, ids), (x: User) => x.id)
  {
    var found := UsersIn(users, ids);
    assert u in found;
    var j :| 0 <= j < |found| && found[j] == u;
    assert Map(found, (x: User) => x.id)[j] == u.id;
  }

  /** An id among the found users is listed and names a user. */
  lemma FoundListed(users: seq<User>, ids: seq<int>, k: int)
    requires k in Map(UsersIn(users, ids), (u: User) => u.id)
    ensures k in ids && exists u :: u in users && u.id == k
  {
    var found := UsersIn(users, ids);
    var j :| 0 <= j < |found| && Map(found, (u: User) => u.id)[j] == k;
    assert found[j] in found;
  }

  /** Two users found at different positions have different ids. */
  lemma {:induction false} UsersInOrder(users: seq<User>, ids: seq<int>, a: nat, b: nat)
    requires forall x, y :: 0 <= x < y < |users| ==> users[x].id != users[y].id
    requires a < b < |UsersIn(users, ids)|
    ensures UsersIn(users, ids)[a].id != UsersIn(users, ids)[b].id
  {
    assert NoDuplicates(users) by {
      forall x, y | 0 <= x < y < |users| ensures users[x] != users[y] { }
    }
    FilterNoDuplicates(users, (u: User) => u.id in ids);
    var found := UsersIn(users, ids);
    assert found[a] in users && found[b] in users && found[a] != found[b];
    var x :| 0 <= x < |users| && users[x] == found[a];
    var y :| 0 <= y < |users| && users[y] == found[b];
    assert x != y;
  }

  /** GetSingle_PreResultCheck: reading needs the read right. */
  function AccessReadCheck<D(!new)>(rules: AccessRules<D>, model: GenericModel<D>, user: Option<User>): (r: Outcome)
    ensures r.Pass? <==> rules.canRead(model, user)
    ensures r.Fail? ==> r.error == Unauthorized("You do not have permission to read this record")
  {
    if !rules.canRead(model, user) then Fail(Unauthorized("You do not have permission to read this record")) else Pass
  }

  /** Delete_PreDeleteCheck: deleting needs the delete right. */
  function AccessDeleteCheck<D(!new)>(rules: AccessRules<D>, model: GenericModel<D>, user: Option<User>): (r: Outcome)
    ensures r.Pass? <==> rules.canDelete(model, user)
    ensures r.Fail? ==> r.error == Unauthorized("You do not have permission to delete this record")
  {
    if !rules.canDelete(model, user) then Fail(Unauthorized("You do not have permission to delete this record")) else Pass
  }

  /** The hooks of an AccessController; its listing keeps what the requester can read. */
  function AccessHooks<D(!new)>(rules: AccessRules<D>): (h: Hooks<D>)
    ensures forall v :: h.postCheck(v) == AccessPostCheck(rules, v)
    ensures forall s, m :: h.insertCheck(s, m) == Pass
    ensures forall v, m, u, us :: h.putCheck(v, m, u, us) == AccessPutCheck(rules, v, m, u, us)
    ensures forall m, u :: h.readCheck(m, u) == AccessReadCheck(rules, m, u)
    ensures forall m, u :: h.deleteCheck(m, u) == AccessDeleteCheck(rules, m, u)
    ensures forall m, u :: h.listable(m, u) == rules.canRead(m, u)
  {
    Hooks((v: GenericView<D>) => AccessPostCheck(rules, v),
          (s: seq<GenericModel<D>>, m: GenericModel<D>) => Pass,
          (v: GenericView<D>, m: GenericModel<D>, u: Option<User>, us: seq<User>) => AccessPutCheck(rules, v, m, u, us),
          (m: GenericModel<D>, u: Option<User>) => AccessReadCheck(rules, m, u),
          (m: GenericModel<D>, u: Option<User>) => AccessDeleteCheck(rules, m, u),
          (m: GenericModel<D>, u: Option<User>) => rules.canRead(m, u))
  }

  /** An AccessController lists only records the requester can read, and every one of them. */
  lemma AccessListsReadable<D(!new)>(rules: AccessRules<D>, base: seq<GenericModel<D>>, user: Option<User>)
    ensures forall m :: m in Filter(base, ListableBy(AccessHooks(rules), user)) <==> m in base && rules.canRead(m, user)
  {
    ListedExactly(base, AccessHooks(rules), user);
  }
}
