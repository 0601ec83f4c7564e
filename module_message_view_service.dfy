/**
 * ModuleMessageViewService: module messages are relations; a requester sees only the broadcast
 * ones and those addressed to it, and modules add messages by writing one relation.
 */
module ModuleMessageViewService {
  import opened Wrappers
  import opened Seqs
  import opened Numbers
  import opened EntitySystem
  import EntityStore

  datatype ModuleMessageView = ModuleMessageView(
    id: int, sendUserId: int, receiveUserId: int, message: string, moduleName: string, createDate: Option<int>)

  /**
   * ModuleMessageViewSource.FromView: the sender in EntityId1, the receiver negated in
   * EntityId2 (what the visibility filter reads back; 0 is the broadcast receiver), the module
   * name as the relation type and the text as its value.
   */
  function MessageFromView(v: ModuleMessageView): (x: EntityRelation)
    ensures x.id == v.id && x.entityId1 == v.sendUserId && x.entityId2 == NegateLong(v.receiveUserId)
    ensures x.kind == v.moduleName && x.value == v.message && x.createDate == v.createDate
  {
    EntityRelation(v.id, v.sendUserId, NegateLong(v.receiveUserId), v.moduleName, v.message, v.createDate)
  }

  /** ModuleMessageViewSource.ToView: the inverse reading of a message relation. */
  function MessageToView(x: EntityRelation): (v: ModuleMessageView)
    ensures v.id == x.id && v.sendUserId == x.entityId1 && v.receiveUserId == NegateLong(x.entityId2)
    ensures v.moduleName == x.kind && v.message == x.value && v.createDate == x.createDate
  {
    ModuleMessageView(x.id, x.entityId1, NegateLong(x.entityId2), x.value, x.kind, x.createDate)
  }

  /** A message written for a receiver in the `long` range reads back unchanged. */
  lemma MessageRoundTrip(v: ModuleMessageView)
    requires InLong(v.receiveUserId)
    ensures MessageToView(MessageFromView(v)) == v
  {
    NegateLongTwice(v.receiveUserId);
  }

  /** The filter of PreparedSearchAsync: a broadcast, or addressed to `-requester.userId`. */
  predicate Visible(x: EntityRelation, requester: int)
  {
    x.entityId2 == 0 || x.entityId2 == NegateLong(requester)
  }

  /** The filter as a function of the relation alone, shared by every use. */
  function VisibleTo(requester: int): (p: EntityRelation -> bool)
  {
    (x: EntityRelation) => Visible(x, requester)
  }

  /**
   * PreparedSearchAsync over the relations the unfiltered message search found: the visible
   * ones, in order, as views.
   */
  function PreparedSearch(found: seq<EntityRelation>, requester: int): (r: seq<ModuleMessageView>)
  {
    Map(Filter(found, VisibleTo(requester)), MessageToView)
  }

  /**
   * Messages are removed, never added or altered: every result is the view of a found relation
   * the requester may see, and every such relation is in the result.
   */
  lemma PreparedSearchExactly(found: seq<EntityRelation>, requester: int)
    ensures |PreparedSearch(found, requester)| <= |found|
    ensures forall v :: v in PreparedSearch(found, requester) ==>
      exists x :: x in found && Visible(x, requester) && v == MessageToView(x)
    ensures forall x :: x in found && Visible(x, requester) ==> MessageToView(x) in PreparedSearch(found, requester)
  {
    var kept := Filter(found, VisibleTo(requester));
    var r := PreparedSearch(found, requester);
    forall v | v in r ensures exists x :: x in found && Visible(x, requester) && v == MessageToView(x) {
      var i :| 0 <= i < |r| && r[i] == v;
      assert kept[i] in kept;
    }
    forall x | x in found && Visible(x, requester) ensures MessageToView(x) in r {
      assert x in kept;
      var i :| 0 <= i < |kept| && kept[i] == x;
      assert r[i] == MessageToView(x);
    }
  }

  /** A broadcast message is in every requester's result. */
  lemma BroadcastVisibleToAll(found: seq<EntityRelation>, x: EntityRelation, requester: int)
    requires x in found && x.entityId2 == 0
    ensures MessageToView(x) in PreparedSearch(found, requester)
  {
    PreparedSearchExactly(found, requester);
  }

  /** Two `long`s with the same unchecked negation are equal. */
  lemma NegateLongInjective(a: int, b: int)
    requires InLong(a) && InLong(b) && NegateLong(a) == NegateLong(b)
    ensures a == b
  {
    NegateLongTwice(a);
    NegateLongTwice(b);
  }

  /**
   * A message written for a receiver is visible to a requester (both in the `long` range)
   * exactly when it is a broadcast or the requester is its receiver.
   */
  lemma VisibleExactly(v: ModuleMessageView, requester: int)
    requires InLong(v.receiveUserId) && InLong(requester)
    ensures Visible(MessageFromView(v), requester) <==> v.receiveUserId == 0 || v.receiveUserId == requester
  {
    if NegateLong(v.receiveUserId) == 0 {
      NegateLongTwice(v.receiveUserId);
    }
    if NegateLong(v.receiveUserId) == NegateLong(requester) {
      NegateLongInjective(v.receiveUserId, requester);
    }
  }

  /** The `sendmessage(target, text)` host call of module `moduleName` run for `requester`. */
  function SendMessage(moduleName: string, requester: int, target: int, text: string): (v: ModuleMessageView)
    ensures v.sendUserId == requester && v.receiveUserId == target
    ensures v.moduleName == moduleName && v.message == text && v.id == 0
  {
    ModuleMessageView(0, requester, target, text, moduleName, None)
  }

  /**
   * A command of module "test" run by user `uid` that sends "hey" to `uid` and "hey NO" to
   * `uid + 1` leaves `uid` with exactly one message, "hey" from "test", sent by and to `uid`.
   * User 9 is one such user.
   */
  lemma ReadMessagesInstant(uid: int, id1: int, id2: int)
    requires InLong(uid) && InLong(uid + 1) && uid != -1
    ensures var written := [MessageFromView(SendMessage("test", uid, uid, "hey")).(id := id1),
                            MessageFromView(SendMessage("test", uid, uid + 1, "hey NO")).(id := id2)];
      var r := PreparedSearch(written, uid);
      && |r| == 1 && r[0].message == "hey" && r[0].moduleName == "test"
      && r[0].receiveUserId == uid && r[0].sendUserId == uid
  {
    var m1 := MessageFromView(SendMessage("test", uid, uid, "hey")).(id := id1);
    var m2 := MessageFromView(SendMessage("test", uid, uid + 1, "hey NO")).(id := id2);
    VisibleExactly(SendMessage("test", uid, uid, "hey"), uid);
    VisibleExactly(SendMessage("test", uid, uid + 1, "hey NO"), uid);
    assert Visible(m1, uid) && !Visible(m2, uid);
    assert [m1, m2][1..] == [m2];
    assert Filter([m1, m2], VisibleTo(uid)) == [m1];
    NegateLongTwice(uid);
  }

  /** The scenario for the user of the repository's own test. */
  lemma ReadMessagesInstantForUser9(id1: int, id2: int)
    ensures var written := [MessageFromView(SendMessage("test", 9, 9, "hey")).(id := id1),
                            MessageFromView(SendMessage("test", 9, 10, "hey NO")).(id := id2)];
      |PreparedSearch(written, 9)| == 1 && PreparedSearch(written, 9)[0].message == "hey"
  {
    ReadMessagesInstant(9, id1, id2);
  }

  /**
   * AddMessageAsync: the message is written to the store as one new relation, and the view of
   * the written relation is returned, which is the message under its new id.
   */
  method AddMessageAsync(store: EntityStore.Store, basic: ModuleMessageView) returns (view: ModuleMessageView)
    requires store.Valid() && InLong(basic.receiveUserId)
    modifies store
    ensures store.Valid()
    ensures store.relations == old(store.relations) + [MessageFromView(basic).(id := old(store.nextId))]
    ensures store.entities == old(store.entities) && store.values == old(store.values)
    ensures view == basic.(id := old(store.nextId))
  {
    var relation := MessageFromView(basic);
    var written := store.InsertRelation(relation);
    view := MessageToView(written);
    MessageRoundTrip(basic);
  }
}
