/**
 * CategoryController: categories are history entities whose own fields are a name (the entity
 * name) and a description (the entity content). Only super users may write or delete them, and
 * a listing is restricted to the children of the requested parents only when some are given.
 */
module CategoryController {
  import opened Wrappers
  import opened Seqs
  import opened EntitySystem
  import opened EntityStore
  import opened HistoryControllers
  import opened ViewSources

  /** The fields of a category view beyond its id and dates. */
  datatype CategoryFields = CategoryFields(name: string, description: string)

  /** CreateBasePackage: a new entity named after the view, with the description as content. */
  function CreateBasePackage(fields: CategoryFields, now: int): (p: EntityPackage)
    ensures p.entity.name == fields.name && p.entity.content == fields.description
    ensures p.entity.id == 0 && p.entity.kind == "" && p.entity.createDate == Some(now)
    ensures p.values == [] && p.relations == [] && IsUnsaved(p)
  {
    NewEntity(fields.name, fields.description, now)
  }

  /** CreateBaseView: the name from the entity name, the description from the entity content. */
  function CreateBaseView(p: EntityPackage): (fields: CategoryFields)
    ensures fields.name == p.entity.name && fields.description == p.entity.content
  {
    CategoryFields(p.entity.name, p.entity.content)
  }

  /** The category fields survive CreateBasePackage followed by CreateBaseView. */
  lemma FieldsRoundTrip(fields: CategoryFields, now: int)
    ensures CreateBaseView(CreateBasePackage(fields, now)) == fields
  {
  }

  /** A history controller built with the category conversions. */
  ghost predicate IsCategoryController(c: EntityBaseController<CategoryFields>)
  {
    && (forall f, n :: c.createBasePackage(f, n) == CreateBasePackage(f, n))
    && (forall p :: c.createBaseView(p) == CreateBaseView(p))
  }

  /**
   * Written through a category controller, a category view reads back as it was, with the time
   * of the write as its edit date.
   */
  lemma {:induction false} CategoryViewRoundTrip(c: EntityBaseController<CategoryFields>, view: HistoricView<CategoryFields>, now: int)
    requires IsCategoryController(c)
    ensures c.BaseOk(view, now)
    ensures c.ConvertToView(c.ConvertFromView(view, now)) == Success(view.(editDate := now))
  {
    var base := c.createBasePackage(view.body, now);
    assert base == CreateBasePackage(view.body, now);
    c.ViewRoundTrip(view, now);
    var p := c.ConvertFromView(view, now);
    assert c.createBaseView(p) == CreateBaseView(p);
  }

  /** What FailUnlessRequestSuper raises for a requester who is not super. */
  const NotSuper: Fault := AuthorizationFailure("Requester is not super")

  /**
   * CleanViewGeneralAsync: a requester who is not super fails before anything else; a super
   * requester gets the base cleaning's outcome.
   */
  function CleanViewGeneralAsync<V>(isSuper: bool, baseClean: Result<V>): (r: Result<V>)
    ensures !isSuper ==> r == Failure(NotSuper)
    ensures isSuper ==> r == baseClean
    ensures r.Success? <==> isSuper && baseClean.Success?
  {
    if !isSuper then Failure(NotSuper) else baseClean
  }

  /**
   * DeleteCheckAsync: the base delete check runs first and its failure wins; a package that
   * passes it is returned only to a super requester.
   */
  function DeleteCheckAsync(baseCheck: Result<EntityPackage>, isSuper: bool): (r: Result<EntityPackage>)
    ensures baseCheck.Failure? ==> r == baseCheck
    ensures baseCheck.Success? && !isSuper ==> r == Failure(NotSuper)
    ensures r.Success? <==> baseCheck.Success? && isSuper
    ensures r.Success? ==> r == baseCheck
  {
    match baseCheck
    case Failure(e) => Failure(e)
    case Success(package) => if !isSuper then Failure(NotSuper) else Success(package)
  }

  /**
   * The query GetAsync finalizes: the requester's readable rows, restricted to the children of
   * the requested parents when there are any.
   */
  function CategoryQuery(perms: seq<EntityGroup>, relations: seq<EntityRelation>, parentIds: seq<int>): (r: seq<EntityGroup>)
    ensures |parentIds| == 0 ==> r == perms
    ensures |parentIds| > 0 ==>
      && (forall i :: 0 <= i < |r| ==> r[i] in perms && IsChildOf(relations, r[i].entity.id, parentIds))
      && (forall i :: 0 <= i < |perms| && IsChildOf(relations, perms[i].entity.id, parentIds) ==> perms[i] in r)
  {
    if |parentIds| > 0 then LimitByParents(perms, relations, parentIds) else perms
  }

  /** Without the guard an empty parent list would select nothing, which is why GetAsync has it. */
  lemma NoParentsSelectsNothing(perms: seq<EntityGroup>, relations: seq<EntityRelation>)
    ensures LimitByParents(perms, relations, []) == []
  {
    var r := LimitByParents(perms, relations, []);
    if |r| > 0 {
      FirstIn(r);
      assert false;
    }
  }
}
