/**
 * BaseMapper: the two fields every entity and every view share, the id and the create date,
 * copied between an entity object and a view object in place.
 */
module BaseMapper {
  import opened Wrappers

  /** EntityBase: the shared part of every stored record; its create date may be null. */
  class EntityBase {
    var id: int
    var createDate: Option<int>

    constructor (id: int, createDate: Option<int>)
      ensures this.id == id && this.createDate == createDate
    {
      this.id, this.createDate := id, createDate;
    }
  }

  /** BaseView: the shared part of every view. */
  class BaseView {
    var id: int
    var createDate: int

    constructor (id: int, createDate: int)
      ensures this.id == id && this.createDate == createDate
    {
      this.id, this.createDate := id, createDate;
    }
  }

  /**
   * ApplyToViewBasic: the view takes the entity's id, then its create date; a null create date
   * fails the cast after the id was already copied.
   */
  method ApplyToViewBasic(entityBase: EntityBase, view: BaseView) returns (r: Outcome)
    modifies view
    ensures view.id == entityBase.id
    ensures entityBase.createDate.Some? ==> r == Pass && view.createDate == entityBase.createDate.value
    ensures entityBase.createDate.None? ==>
      r == Fail(InvalidOperation("Nullable object must have a value.")) && view.createDate == old(view.createDate)
  {
    view.id := entityBase.id;
    match entityBase.createDate
    case None =>
      return Fail(InvalidOperation("Nullable object must have a value."));
    case Some(date) =>
      view.createDate := date;
      r := Pass;
  }

  /** ApplyFromViewBasic: the entity takes the view's id and create date; the view is not changed. */
  method ApplyFromViewBasic(view: BaseView, entityBase: EntityBase)
    modifies entityBase
    ensures entityBase.id == view.id && entityBase.createDate == Some(view.createDate)
  {
    entityBase.id := view.id;
    entityBase.createDate := Some(view.createDate);
  }

  /**
   * A view copied into an entity and back into another view gives that view the first one's id
   * and create date, and the first view and the entity keep what they were given.
   */
  method RoundTrip(view: BaseView, entityBase: EntityBase, target: BaseView) returns (r: Outcome)
    modifies entityBase, target
    ensures r == Pass
    ensures target.id == old(view.id) && target.createDate == old(view.createDate)
    ensures entityBase.id == old(view.id) && entityBase.createDate == Some(old(view.createDate))
    ensures target != view ==> view.id == old(view.id) && view.createDate == old(view.createDate)
  {
    ApplyFromViewBasic(view, entityBase);
    r := ApplyToViewBasic(entityBase, target);
  }
}
