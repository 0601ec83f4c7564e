/**
 * CategoriesController of the older system: a generic controller over categories whose only
 * addition is that a new category naming a parent needs that parent to exist.
 */
module CategoriesController {
  import opened Wrappers
  import opened GenericControllers

  /** The fields a category record and its view share beyond the id and the create date. */
  datatype CategoryData = CategoryData(
    parentId: Option<int>, name: string, description: string, accessPerms: string, defaultPerms: string)

  type Category = GenericModel<CategoryData>

  /**
   * The part of Post_PreInsertCheck after the base one: no parent passes; a parent id must be
   * the id of a stored category (Categories.FindAsync), or the post is a bad request.
   */
  function ParentCheck(categories: seq<Category>, category: Category): (r: Outcome)
    ensures category.data.parentId.None? ==> r == Pass
    ensures category.data.parentId.Some? ==>
      (r.Pass? <==> exists k :: 0 <= k < |categories| && categories[k].id == category.data.parentId.value)
    ensures r.Fail? ==> r.error == BadRequest("Nonexistent parent category!")
  {
    match category.data.parentId
    case None => Pass
    case Some(parent) =>
      if IndexOfId(categories, parent) < 0 then Fail(BadRequest("Nonexistent parent category!")) else Pass
  }

  /**
   * Post_PreInsertCheck as a whole: the base normalisation first, then the parent check on the
   * normalised category.
   */
  function PostPreInsertCheck(categories: seq<Category>, category: Category, now: int): (r: Result<Category>)
    ensures r.Success? <==> ParentCheck(categories, PreInsertCheck(category, now)).Pass?
    ensures r.Success? ==> r.value == PreInsertCheck(category, now)
    ensures r.Failure? ==> r.error == BadRequest("Nonexistent parent category!")
  {
    var normal := PreInsertCheck(category, now);
    match ParentCheck(categories, normal)
    case Fail(e) => Failure(e)
    case Pass => Success(normal)
  }

  /** What the client sends as id, status and create date cannot change the outcome. */
  lemma InsertCheckIgnoresClient(categories: seq<Category>, a: Category, b: Category, now: int)
    requires a.data == b.data
    ensures PostPreInsertCheck(categories, a, now) == PostPreInsertCheck(categories, b, now)
  {
  }

  /**
   * The parent lookup finds soft-deleted categories too: a parent whose Deleted bit is set is
   * accepted like any other stored category.
   */
  lemma DeletedParentAccepted(categories: seq<Category>, category: Category, k: nat, deleted: bv32)
    requires k < |categories| && category.data.parentId == Some(categories[k].id)
    requires categories[k].status & deleted == deleted
    ensures ParentCheck(categories, category) == Pass
  {
  }

  /** The hooks of CategoriesController: the parent check on insert, the base ones elsewhere. */
  function CategoriesHooks(): (h: Hooks<CategoryData>)
    ensures forall s, m :: h.insertCheck(s, m) == ParentCheck(s, m)
    ensures forall v :: h.postCheck(v) == Pass
    ensures forall v, m, u, us :: h.putCheck(v, m, u, us) == Pass
    ensures forall m, u :: h.readCheck(m, u) == Pass && h.deleteCheck(m, u) == Pass && h.listable(m, u)
  {
    BaseHooks<CategoryData>().(insertCheck := (s: seq<Category>, m: Category) => ParentCheck(s, m))
  }

  /**
   * Through the controller's Post, the parent check sees the normalised category, so it passes
   * exactly when PostPreInsertCheck accepts the converted view.
   */
  lemma PostChecksNormalised(categories: seq<Category>, item: GenericView<CategoryData>, now: int)
    ensures CategoriesHooks().insertCheck(categories, PreInsertCheck(NewModel(item), now)).Pass?
      <==> PostPreInsertCheck(categories, NewModel(item), now).Success?
  {
  }
}
