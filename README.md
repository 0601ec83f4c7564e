# contentapi: the history entity system, its controllers and view sources

This project models the sequential rules of contentapi, a C# web API for content sites. The
rules sit around an entity store of entities, key/value rows and typed relations. The storage
provider, EF Core and ASP.NET are replaced by an in-memory store of three tables, which is a
Dafny class. The model covers these parts:

- **Stand-in history** (`HistoryControllers`). Every user-visible id names a stand-in entity.
  Each revision is a new entity, linked to its stand-in by a relation whose value marks it
  active. A write marks the previous revision inactive and historic, then stores the new
  package. If that store fails, the saved copies are written back.
- **Generic CRUD controllers** (`GenericControllers`, `CategoriesController`):
  - inserts are normalised;
  - updates keep the record's id and creation date;
  - delete is soft, through a status bit;
  - actions are logged;
  - the access controller runs its format, update, read and delete checks.
- **View conversions** (`ContentViewService`, `ContentViewSource`, `CategoryController`,
  `BaseMapper`):
  - keywords are stored as values under one key;
  - associated values are stored under a prefixed key;
  - type strings are prefixed and later stripped.
- **Visibility and authorization**:
  - module messages are visible when broadcast or addressed to the requester;
  - a watch is accessible to its owner or to the system;
  - activity content ids are stored negated.
- **Search building blocks** (`ViewSources`, `StandardViewSource`, `Searches`):
  - the limit is clamped;
  - filters apply only when their inputs are non-empty;
  - parent, orphan, value and creator filters are relational comprehensions over sequences;
  - the associated-value filter takes its key pattern as a parameter, so both the pattern as
    written and the intended one (see "## Findings") can be stated;
  - the id finalisation yields distinct ids;
  - grouped aggregates are computed per key.
- **Role permissions and key-table uniqueness** (`Permissions`, `Keys`).

Shared modules:

- `Wrappers` holds Option, Result and Outcome, and the faults the code raises. Exceptions
  become `Failure` values.
- `Numbers` holds 64-bit ranges, `long.ToString`, `long.Parse` and unchecked negation.
- `EntitySystem` holds the storage records, SQL `LIKE` and the type-prefix helpers.
- `EntityStore` holds the store class.
- `Seqs` and `Views` hold sequence and insertion-ordered dictionary helpers.

Parameters stand in for these:

- the current time (`now`);
- a store write that fails (`fault`);
- keys read from the injected keys object, whose class is not part of this model;
- the query service, the access service and the permission-checked read query.

## Model

| member | source | states |
|---|---|---|
| Keys.EnsureAllUnique | contentapi/Keys.cs:60-67 | fails with InvalidOperation("There is a duplicate key!") exactly when two key values are equal; it reads only its argument |
| Keys.ShippedKeysUnique | contentapi/Keys.cs:8-67 | the shipped key constants are pairwise distinct, so the start-up check passes |
| Keys.KeywordNeverAssociated | contentapi/Keys.cs:12-26 | no associated-value key ("@" plus any name) is the keyword key "#", so keyword values and associated values never collide |
| Permissions.GetAllPermissions | Models/Permissions.cs:28-31 | a permission is listed exactly when some grant to a role whose value is at most the given role lists it |
| Permissions.CanDo | Models/Permissions.cs:33-36 | holds exactly when the permission is in GetAllPermissions, that is, exactly when some grant at or below the role lists it |
| Permissions.GetAllPermissionsMonotone | Models/Permissions.cs:30 | a higher role holds every permission of a lower one, with multiplicity (multiset inclusion) |
| Permissions.DefaultGrantsByRole | Models/Permissions.cs:21-31 | with the shipped grants, roles below SiteAdministrator hold nothing and roles from it up hold exactly CreateCategory; no role holds UpdateCategory or DeleteCategory |
| Searches.ClampLimit | contentapi/Services/Views/Implementations/ViewSources/BaseViewSource.cs:35-36 | the result lies in 0..1000; an in-range limit is kept and an out-of-range one becomes exactly 1000 |
| Searches.ClampLimitIdempotent | contentapi/Services/Views/Implementations/ViewSources/BaseViewSource.cs:33-39 | limiting a limited search changes nothing |
| Searches.LimitSearch | contentapi/Services/Views/Implementations/ViewSources/BaseViewSource.cs:33-39 | returns the same object, whose limit is clamped into 0..1000, and no other field changes |
| Searches.ApplyFinal | contentapi/Services/Views/Implementations/ViewSources/BaseViewSource.cs:89-91 | paging is a contiguous slice of the input after the skipped prefix, of the limited length when a limit is given, otherwise the whole rest |
| ViewSources.LimitByParents | contentapi/Services/Implementations/ViewSources/_BaseViewSource.cs:47-53 | exactly the rows that are the target of a parent relation from a listed parent are kept, and nothing is added (BaseViewSource.cs:53-59 is the same join) |
| ViewSources.GetOrphans | contentapi/Services/Implementations/ViewSources/_BaseViewSource.cs:55-58 | exactly the rows whose entity is the target of no parent relation are kept |
| ViewSources.OrphansAreNoChildren | contentapi/Services/Implementations/ViewSources/_BaseViewSource.cs:47-58 | no row is both an orphan and the child of a listed parent |
| ViewSources.LimitByValue | contentapi/Services/Implementations/ViewSources/_BaseViewSource.cs:68-74 | exactly the rows having a value whose key and value match the two LIKE patterns are kept |
| ViewSources.LimitByCreateEdit | contentapi/Services/Implementations/ViewSources/_BaseViewSource.cs:76-90 | with both lists empty the query is returned unchanged; otherwise exactly the rows with a creator relation are kept whose creator is listed (if creators are given) and whose value prints a listed editor (if editors are given) |
| ViewSources.GetByIds | contentapi/Services/Implementations/ViewSources/_BaseViewSource.cs:92-98 | exactly the records whose id is listed are returned |
| ViewSources.FinalizeQuery | contentapi/Services/Implementations/ViewSources/_BaseViewSource.cs:100-103 | every main id of the query appears exactly once, and no other id appears |
| ViewSources.ApplyFinalSublist | contentapi/Services/Views/Implementations/ViewSources/BaseViewSource.cs:91 | paging a duplicate-free id list keeps it duplicate-free and draws only from it |
| ViewSources.FinalizePaged | contentapi/Services/Views/Implementations/ViewSources/BaseViewSource.cs:85-92 | the paged ids are distinct main ids of the query, at most `limit` of them |
| ViewSources.SearchIds | contentapi/Services/Implementations/ViewSources/_BaseViewSource.cs:169-184 | the ids come from the base query after ModifySearch, the optional modifier and the source's FinalizeQuery, then paging: each is a finalised id, at most `limit` of them, distinct when the finalised ids are, and all of them without paging |
| ViewSources.SearchIdsWithBaseFinalize | contentapi/Services/Implementations/ViewSources/_BaseViewSource.cs:169-184 | with the base FinalizeQuery the ids are the paged distinct main ids of the modified query, each a main id of one of its entries |
| ViewSources.MaxOf | contentapi/Services/Implementations/ViewSources/_BaseViewSource.cs:116 | the maximum of a non-empty list: a member of it that no element exceeds |
| ViewSources.MaxDate | contentapi/Services/Implementations/ViewSources/_BaseViewSource.cs:114 | SQL MAX over a nullable column: null exactly when every entry is null, otherwise the largest non-null entry |
| ViewSources.MinDate | contentapi/Services/Implementations/ViewSources/_BaseViewSource.cs:115 | SQL MIN over a nullable column: null exactly when every entry is null, otherwise the smallest non-null entry |
| ViewSources.Aggregate | contentapi/Services/Implementations/ViewSources/_BaseViewSource.cs:108-117 | count is the group size; lastId is the largest id in the group; both dates are null, or firstDate ≤ every dated record ≤ lastDate |
| ViewSources.JoinIds | contentapi/Services/Implementations/ViewSources/_BaseViewSource.cs:108 | the joined rows are exactly the table rows whose id is listed; when the table holds no id twice, there are no more rows than ids |
| ViewSources.FilterAtMostOne | contentapi/Services/Implementations/ViewSources/_BaseViewSource.cs:108 | in a table with unique ids, the rows joined to one id are at most one |
| ViewSources.FilterKeepsUniqueIds | contentapi/Services/Implementations/ViewServices/ActivityViewService.cs:82-84 | a `Where` over a table with unique ids leaves the ids unique |
| ViewSources.GroupAsync | contentapi/Services/Implementations/ViewSources/_BaseViewSource.cs:105-132 | the map's keys are exactly the keys of the records named by the ids, and each entry is the aggregate of that key's non-empty group |
| StandardViewSource.KeyPatternAsWritten | contentapi/Services/Implementations/ViewSources/_BaseStandardViewSource.cs:25 | the key pattern as the code evaluates it: the prefix followed by the key, with a null key contributing nothing |
| StandardViewSource.KeyPatternAsWrittenNullKey | contentapi/Services/Implementations/ViewSources/_BaseStandardViewSource.cs:25 | without a key the as-written pattern is the bare "@", which has no wildcard |
| StandardViewSource.KeyPatternAsWrittenMissesValues | contentapi/Services/Implementations/ViewSources/_BaseStandardViewSource.cs:24-25 | a value search without a key misses the associated value "@color" under the as-written pattern, and finds it under the corrected one |
| StandardViewSource.KeyPattern | contentapi/Services/Implementations/ViewSources/_BaseStandardViewSource.cs:25 | corrected key pattern: the prefix followed by the key, or by "%" when there is no key |
| StandardViewSource.AnyAssociatedKeyMatches | contentapi/Services/Implementations/ViewSources/_BaseStandardViewSource.cs:25 | without a key, the corrected pattern matches exactly the strings that start with the associated-value prefix |
| StandardViewSource.ValuePattern | contentapi/Services/Implementations/ViewSources/_BaseStandardViewSource.cs:25 | the requested value, or "%" when none is given |
| StandardViewSource.ParentStage | contentapi/Services/Implementations/ViewSources/_BaseStandardViewSource.cs:21-22 | without parent ids the query is unchanged; otherwise exactly its rows that are children of a listed parent |
| StandardViewSource.ValueStage | contentapi/Services/Implementations/ViewSources/_BaseStandardViewSource.cs:24-25 | without a key and a value the query is unchanged; otherwise exactly its rows with a value matching the value pattern and the key pattern that `keyPattern` builds |
| StandardViewSource.ModifySearch | contentapi/Services/Implementations/ViewSources/_BaseStandardViewSource.cs:17-28 | the base modification is applied first; with neither filter asked for its result is returned; otherwise exactly its rows that pass every filter that was asked for, the key pattern built by `keyPattern` (as written or corrected) |
| StandardViewSource.ModifySearchAsWrittenNullKey | contentapi/Services/Implementations/ViewSources/_BaseStandardViewSource.cs:24-25 | as written, a value search without a key keeps exactly the entries with a matching value stored under the bare key "@" |
| StandardViewSource.ModifySearchCorrectedNullKey | contentapi/Services/Implementations/ViewSources/_BaseStandardViewSource.cs:24-25 | corrected, a value search without a key keeps exactly the entries with a matching value under any associated key |
| StandardViewSource.ModifySearchAsWrittenMissesValue | contentapi/Services/Implementations/ViewSources/_BaseStandardViewSource.cs:17-28 | an entry whose value ("@color", "red") is searched for by value alone: the as-written search drops it and the corrected one keeps it |
| ContentViewSource.PackageOf | contentapi/Services/Implementations/ViewSources/ContentViewSource.cs:45-64 | the entity carries the view's id, date, name and content and the content type followed by the view type; there is one keyword value per keyword, in order, attached to the view id with no date |
| ContentViewSource.FromView | contentapi/Services/Implementations/ViewSources/ContentViewSource.cs:45-64 | the keyword loop builds exactly PackageOf(view) |
| ContentViewSource.ViewOf | contentapi/Services/Implementations/ViewSources/ContentViewSource.cs:66-79 | fails with ArgumentOutOfRange exactly when the entity type is shorter than the content-type prefix; otherwise the type past the prefix, the name, content and id copied, and the keyword values in order |
| ContentViewSource.CollectKeywords | contentapi/Services/Implementations/ViewSources/ContentViewSource.cs:75-76 | the loop collects the values under the keyword key, in order |
| ContentViewSource.ToView | contentapi/Services/Implementations/ViewSources/ContentViewSource.cs:66-79 | the method computes ViewOf(p) |
| ContentViewSource.ViewOfPackageOf | contentapi/Services/Implementations/ViewSources/ContentViewSource.cs:45-79 | round trip: FromView then ToView gives back the view's id, creation date, name, content, type and keywords in order |
| ContentViewSource.CreateSearch | contentapi/Services/Implementations/ViewSources/ContentViewSource.cs:81-86 | the returned object is the given one; its type pattern is extended with the requested type, or with "%" when none is given; nothing else changes |
| ContentViewSource.ModifySearch | contentapi/Services/Implementations/ViewSources/ContentViewSource.cs:88-96 | a blank keyword leaves the standard result, for either key pattern; otherwise exactly the standard result's rows that have a keyword value matching the keyword |
| ContentViewSource.SortMultipliers | contentapi/Services/Implementations/ViewSources/ContentViewSource.cs:104-117 | "votes" gives (1, 0), "watches" gives (0, 1), "score" gives (1, 1), and any other sort gives (0, 0) |
| ContentViewSource.WeightKeys | contentapi/Services/Implementations/ViewSources/ContentViewSource.cs:121-124 | one key per vote weight (the vote relation followed by the weight key), then the watch relation |
| ContentViewSource.WeightsOf | contentapi/Services/Implementations/ViewSources/ContentViewSource.cs:119-124 | every vote weight scaled by the vote multiplier under its key, then the watch multiplier |
| ContentViewSource.AddEach | contentapi/Services/Implementations/ViewSources/ContentViewSource.cs:121-124 | Add of each entry into an empty dictionary succeeds exactly when the keys are distinct, and then holds every entry in order |
| ContentViewSource.WeightsKeysDistinct | contentapi/Services/Implementations/ViewSources/ContentViewSource.cs:121-124 | the weight table's keys are distinct exactly when WeightKeys has no duplicates |
| ContentViewSource.BuildWeights | contentapi/Services/Implementations/ViewSources/ContentViewSource.cs:119-124 | the weights loop fails with a duplicate key exactly when two weight keys coincide; otherwise it yields WeightsOf |
| ContentViewSource.AllZeroExactlyUnsorted | contentapi/Services/Implementations/ViewSources/ContentViewSource.cs:104-126 | with non-zero vote weights, the table is all zero exactly when the sort is none of "votes", "watches" and "score" |
| ContentViewSource.FinalizeQuery | contentapi/Services/Implementations/ViewSources/ContentViewSource.cs:98-152 | duplicate weight keys fail; an all-zero table falls back to the base distinct ids; otherwise the distinct ids are handed on to be ranked by the table, reversed when asked |
| ContentViewService.KeywordEntries | contentapi/Services/Implementations/ViewServices/ContentViewService.cs:43-44 | one keyword value per keyword, in keyword order |
| ContentViewService.AssociatedEntries | contentapi/Services/Implementations/ViewServices/ContentViewService.cs:46-47 | one prefixed value per associated pair, in dictionary order |
| ContentViewService.BasePackageOf | contentapi/Services/Implementations/ViewServices/ContentViewService.cs:38-53 | a new entity with the view's name, content and bare type, then the keyword values under "#", then each pair (k, v) as key "@"+k with value v |
| ContentViewService.CreateBasePackage | contentapi/Services/Implementations/ViewServices/ContentViewService.cs:38-53 | the two loops build exactly BasePackageOf(view) |
| ContentViewService.AssociatedDictExactly | contentapi/Services/Implementations/ViewServices/ContentViewService.cs:65-66 | rebuilding the dictionary succeeds exactly when no two values strip to the same key, and then it holds one entry per value, in order |
| ContentViewService.BaseViewOf | contentapi/Services/Implementations/ViewServices/ContentViewService.cs:55-69 | succeeds exactly when the type is at least as long as the prefix and the stripped associated keys are distinct; then name, content, keywords in order and the type past the prefix |
| ContentViewService.CollectAssociated | contentapi/Services/Implementations/ViewServices/ContentViewService.cs:65-66 | the loop computes AssociatedDict over the prefixed values: a repeated stripped key fails, otherwise the dictionary of pairs (see AssociatedDictExactly) |
| ContentViewService.CreateBaseView | contentapi/Services/Implementations/ViewServices/ContentViewService.cs:55-69 | the method computes BaseViewOf(p) |
| ContentViewService.KeywordsOfBasePackage | contentapi/Services/Implementations/ViewServices/ContentViewService.cs:62-63 | the keywords read back from a base package are the view's keywords, in order |
| ContentViewService.AssociatedEntriesRebuild | contentapi/Services/Implementations/ViewServices/ContentViewService.cs:46-66 | the prefixed values of a dictionary rebuild that dictionary |
| ContentViewService.AssociatedOfBasePackage | contentapi/Services/Implementations/ViewServices/ContentViewService.cs:46-66 | the associated values of a base package rebuild the view's dictionary; the keyword values are not mistaken for them |
| ContentViewService.BaseViewOfBasePackage | contentapi/Services/Implementations/ViewServices/ContentViewService.cs:38-69 | round trip: a package built from a view, then prefixed with the content type, reads back with the same name, content, type, keywords and values |
| ActivityViewService.ConvertToView | contentapi/Services/Implementations/ViewServices/ActivityViewService.cs:32-35 | the date and the id are copied, the user is entityId1, and the content is the negated entityId2 |
| ActivityViewService.NegateIds | contentapi/Services/Implementations/ViewServices/ActivityViewService.cs:31 | every content id is negated as a `long`, in order |
| ActivityViewService.ContentIdRoundTrip | contentapi/Services/Implementations/ViewServices/ActivityViewService.cs:31-35 | a relation whose entityId2 is a negated content id shows that content id again |
| ActivityViewService.ActivityType | contentapi/Services/Implementations/ViewServices/ActivityViewService.cs:76-77 | a blank type becomes "%"; any other type is kept |
| ActivityViewService.UnicodeSpaceTypeIsBlank | contentapi/Services/Implementations/ViewServices/ActivityViewService.cs:76-77 | a type of Unicode spaces only (an ideographic space; a thin and a no-break space) is blank and becomes "%", while " x" is kept |
| ActivityViewService.ModifySearch | contentapi/Services/Implementations/ViewServices/ActivityViewService.cs:55-61 | the returned object is the given one; its limit is clamped and its type pattern is the activity key; nothing else changes |
| ActivityViewService.ActivityRelationSearch | contentapi/Services/Implementations/ViewServices/ActivityViewService.cs:74-79 | users become EntityIds1 and contents become negated EntityIds2; the limit is clamped; the type is the activity key followed by the type, and a blank type matches every activity |
| ActivityViewService.PagedActivityIds | contentapi/Services/Implementations/ViewServices/ActivityViewService.cs:82-84 | the page of relation ids: no id twice, at most `limit`, each the id of a non-file relation of the query, and without paging every such id |
| ActivityViewService.ActivityRows | contentapi/Services/Implementations/ViewServices/ActivityViewService.cs:81-84 | a row is returned exactly when it is in the query, is not file activity and its id is on the page; with unique relation ids there are at most `limit` rows |
| ActivityViewService.StripContentTypes | contentapi/Services/Implementations/ViewServices/ActivityViewService.cs:86-92 | fails with ArgumentOutOfRange exactly when some content type is shorter than the prefix; otherwise one view per row with the type past the prefix |
| ActivityViewService.FileActivityExcluded | contentapi/Services/Implementations/ViewServices/ActivityViewService.cs:81-82 | no activity that SearchAsync returns is file activity, and each comes from a row of the read query |
| ActivityViewService.PrepareSearch | contentapi/Services/Implementations/ViewServices/ActivityViewService.cs:74-79 | the relation search is ActivityRelationSearch; a blank type on the caller's search becomes "%", any other is kept, and the type pattern is the activity key followed by that type |
| ActivityViewService.SearchAsync | contentapi/Services/Implementations/ViewServices/ActivityViewService.cs:72-93 | the relation search handed to the read query is ActivityRelationSearch and the result is the projection of those rows; a blank type on the caller's search becomes "%", and the relation type pattern is the activity key followed by that type |
| ActivityViewService.FindByIdAsync | contentapi/Services/Implementations/ViewServices/ActivityViewService.cs:134-139 | a search for that one id: a failed conversion passes its fault on; otherwise none, the single activity, or a fault for several |
| ActivityViewService.GroupOf | contentapi/Services/Implementations/ViewServices/ActivityViewService.cs:114 | exactly the comments on that content |
| ActivityViewService.LatestDate | contentapi/Services/Implementations/ViewServices/ActivityViewService.cs:121 | succeeds exactly when the list is non-empty and every date is set; the result is one of the dates and no date exceeds it; otherwise InvalidOperation |
| ActivityViewService.SummaryOf | contentapi/Services/Implementations/ViewServices/ActivityViewService.cs:116-122 | a summary fails only with InvalidOperation (a null date cast) |
| ActivityViewService.SummaryExactly | contentapi/Services/Implementations/ViewServices/ActivityViewService.cs:114-122 | a content's summary succeeds exactly when all its comments are dated; then count is the group size, the user ids are distinct and name exactly the commenters, and lastDate is the group maximum |
| ActivityViewService.Summaries | contentapi/Services/Implementations/ViewServices/ActivityViewService.cs:114-128 | succeeds exactly when every listed content's summary does, and then gives them in order |
| ActivityViewService.CommentKeys | contentapi/Services/Implementations/ViewServices/ActivityViewService.cs:114 | each commented content appears once, and every key has a non-empty group |
| ActivityViewService.NoCommentsWithoutWindow | contentapi/Services/Implementations/ViewServices/ActivityViewService.cs:97-100 | a window that is not positive yields an empty list, whatever the comments |
| ActivityViewService.RowsOfComments | contentapi/Services/Implementations/ViewServices/ActivityViewService.cs:110-112 | the projected rows are exactly the projections of the comments |
| ActivityViewService.SummariesSucceedExactly | contentapi/Services/Implementations/ViewServices/ActivityViewService.cs:114-128 | all summaries succeed exactly when every comment is dated |
| ActivityViewService.CommentsFailExactly | contentapi/Services/Implementations/ViewServices/ActivityViewService.cs:121 | with a positive window, the result fails exactly when some comment has no date |
| ActivityViewService.ParentIds | contentapi/Services/Implementations/ViewServices/ActivityViewService.cs:119 | the content id of each summary, in order |
| ActivityViewService.CommentsOn | contentapi/Services/Implementations/ViewServices/ActivityViewService.cs:109-114 | exactly the comments whose parent content is the key |
| ActivityViewService.SummariesPerKey | contentapi/Services/Implementations/ViewServices/ActivityViewService.cs:114-128 | successful summaries follow the commented contents one to one, each counting its own group |
| ActivityViewService.CommentsOnePerContent | contentapi/Services/Implementations/ViewServices/ActivityViewService.cs:95-132 | a successful result has one summary per commented content, no content twice, and each count is that content's number of comments |
| ActivityViewService.GroupOfMap | contentapi/Services/Implementations/ViewServices/ActivityViewService.cs:112-118 | a content's group among the projected rows is as long as its list of comments |
| ActivityViewService.RecentCommentSearch | contentapi/Services/Implementations/ViewServices/ActivityViewService.cs:102-107 | newest first, created at or after `now` minus the window (before `now` for a positive window), and its type pattern matches exactly the types starting with the comment marker |
| ActivityViewService.SearchCommentsAsync | contentapi/Services/Implementations/ViewServices/ActivityViewService.cs:95-132 | a window that is not positive makes no search and gives nothing; otherwise the comment search is RecentCommentSearch and the result is CommentsOf the comments it reads |
| ModuleMessageViewService.MessageFromView | contentapi/Services/Implementations/ViewServices/ModuleMessageViewService.cs:42 | the sender is EntityId1, the negated receiver is EntityId2, the module is the relation type and the text is the value |
| ModuleMessageViewService.MessageToView | contentapi/Services/Implementations/ViewServices/ModuleMessageViewService.cs:44 | the inverse reading: the receiver is the negated EntityId2 |
| ModuleMessageViewService.MessageRoundTrip | contentapi/Services/Implementations/ViewServices/ModuleMessageViewService.cs:42-44 | a message whose receiver is in the `long` range reads back unchanged |
| ModuleMessageViewService.PreparedSearchExactly | contentapi/Services/Implementations/ViewServices/ModuleMessageViewService.cs:23-37 | the result is never longer than the search; every message in it is a found message the requester may see, and every such message is in it |
| ModuleMessageViewService.BroadcastVisibleToAll | contentapi/Services/Implementations/ViewServices/ModuleMessageViewService.cs:26 | a broadcast message (receiver 0) is in every requester's result |
| ModuleMessageViewService.NegateLongInjective | contentapi/Services/Implementations/ViewServices/ModuleMessageViewService.cs:26 | two `long`s whose unchecked negations are equal are themselves equal |
| ModuleMessageViewService.VisibleExactly | contentapi/Services/Implementations/ViewServices/ModuleMessageViewService.cs:26 | a written message is visible to a requester exactly when it is a broadcast or the requester is its receiver |
| ModuleMessageViewService.SendMessage | contentapi.test/Tests/ModuleServiceTests.cs:92-93 | the message a module's `sendmessage` call writes is from the requester, to the target, under the module's name |
| ModuleMessageViewService.ReadMessagesInstant | contentapi.test/Tests/ModuleServiceTests.cs:88-104 | a command that sends "hey" to its user and "hey NO" to the next user leaves that user exactly one message, "hey" from "test", sent by and to them |
| ModuleMessageViewService.ReadMessagesInstantForUser9 | contentapi.test/Tests/ModuleServiceTests.cs:96-104 | user 9 of the repository's own test reads exactly one message, "hey" |
| ModuleMessageViewService.AddMessageAsync | contentapi/Services/Implementations/ViewServices/ModuleMessageViewService.cs:40-45 | exactly one relation, the converted message under the next id, is added to the store; the returned view is the message under that id |
| WatchViewService.GetWatchRaw | contentapi/Services/Views/Implementations/WatchViewService.cs:30-39 | succeeds exactly when the requester is the system or the relation exists and is owned by the requester (entityId1), and then gives the stored relation or, for a system requester, none; a missing relation for a user is a null dereference; a foreign one is an AuthorizationFailure |
| WatchViewService.OnlyOwnerReads | contentapi/Services/Views/Implementations/WatchViewService.cs:34-36 | without the system flag, a watch is returned only to the user who owns it |
| WatchViewService.SystemGetsNullForUnknownId | contentapi/Services/Views/Implementations/WatchViewService.cs:32-38 | the system asking for an id that names no relation gets null, not a fault |
| WatchViewService.FindByIdAsync | contentapi/Services/Views/Implementations/WatchViewService.cs:50-56 | succeeds exactly when GetWatchRaw does, with the converter's view of the relation found (null included); otherwise the same fault |
| WatchViewService.DeleteAsync | contentapi/Services/Views/Implementations/WatchViewService.cs:41-46 | a refused delete changes nothing and returns the fault; a null item (system requester, unknown id) faults on the delete and changes nothing; an allowed one removes exactly that relation, so no relation keeps its id, and returns its view |
| WatchViewService.RemovedIdGone | contentapi/Services/Views/Implementations/WatchViewService.cs:44 | with unique ids, removing a relation leaves no relation with its id |
| WatchViewService.WriteAsync | contentapi/Services/Views/Implementations/WatchViewService.cs:85-98 | never succeeds: a nonzero id is BadRequest and id 0 is NotImplemented |
| WatchViewService.GetRevisions | contentapi/Services/Views/Implementations/WatchViewService.cs:60-63 | always NotImplemented |
| WatchViewService.WatchSearch | contentapi/Services/Views/Implementations/WatchViewService.cs:76-79 | ids and skip are copied, the limit is clamped, the type is the watch relation followed by "%", and EntityIds1 is exactly the requester |
| WatchViewService.SearchAsync | contentapi/Services/Views/Implementations/WatchViewService.cs:72-83 | the relations found by WatchSearch, converted, in order |
| WatchViewService.SearchOnlyOwnWatches | contentapi/Services/Views/Implementations/WatchViewService.cs:76-81 | a watch search finds at most 1000 relations, each stored, owned by the requester and of the watch type |
| BaseMapper.ApplyToViewBasic | contentapi/Services/Mapping/BaseMapper.cs:12-16 | the view takes the entity's id; a set date is copied; a null date fails the cast ("Nullable object must have a value.") after the id was copied, and leaves the view's date unchanged |
| BaseMapper.ApplyFromViewBasic | contentapi/Services/Mapping/BaseMapper.cs:18-22 | the entity takes the view's id and create date |
| BaseMapper.RoundTrip | contentapi/Services/Mapping/BaseMapper.cs:12-22 | a view copied into an entity and back into another view gives that view the first view's id and date; the first view is untouched when it is a different object |
| EntitySystem.LikeAll | contentapi/Services/Implementations/ViewSources/_BaseViewSource.cs:72 | "%" matches every string |
| EntitySystem.LikeLiteral | contentapi/Services/Implementations/ViewSources/_BaseViewSource.cs:72 | a pattern without wildcards matches exactly itself |
| EntitySystem.LikePrefix | contentapi/Controllers/EntityBaseController.cs:247 | a literal followed by "%" matches exactly the strings that start with the literal |
| EntitySystem.TypeSet | contentapi/Controllers/EntityBaseController.cs:61 | the result starts with the prefix and continues with the value |
| EntitySystem.TypeSub | contentapi/Controllers/EntityBaseController.cs:134 | a value that starts with the prefix is the prefix followed by the result |
| EntitySystem.TypeSubOfTypeSet | contentapi/Controllers/EntityBaseController.cs:134 | removing a prefix that was just set gives the value back, and the set value is of that type |
| EntitySystem.Substring | contentapi/Services/Implementations/ViewSources/ContentViewSource.cs:73 | succeeds exactly when the start is within the string, and then the string is its prefix followed by the result |
| EntitySystem.NewEntity | contentapi/Controllers/EntityBaseController.cs:81 | an unsaved entity (id 0, created now) with that name and content and no values or relations |
| EntitySystem.NewValue | contentapi/Services/Implementations/ViewServices/ContentViewService.cs:44 | an unsaved value with that key and value |
| EntitySystem.NewRelation | contentapi/Controllers/EntityBaseController.cs:65 | an unsaved relation from `from` with that type and value |
| EntitySystem.OnlySingle | contentapi/Controllers/EntityBaseController.cs:225 | none for an empty list, the element for one, a fault for more |
| EntityStore.Linked | contentapi/Controllers/EntityBaseController.cs:177 | a written package gets consecutive fresh ids: the entity first, then its values and relations, each pointing back at the entity |
| EntityStore.Store.EntityById | contentapi/Controllers/EntityBaseController.cs:90 | a stored entity with that id, or none when no entity has it |
| EntityStore.Store.RelationById | contentapi/Services/Views/Implementations/WatchViewService.cs:32 | a stored relation with that id, or none when no relation has it |
| EntityStore.Store.PackageById | contentapi/Controllers/EntityBaseController.cs:112 | the entity with exactly its own values and the relations pointing at it; none exactly when the entity is missing |
| EntityStore.Store.InsertEntity | contentapi/Controllers/EntityBaseController.cs:83 | the entity is appended under the next id; the other tables are unchanged |
| EntityStore.Store.UpdateEntity | contentapi/Controllers/EntityBaseController.cs:138 | the entity at its place is replaced; nothing else changes |
| EntityStore.Store.InsertRelation | contentapi/Services/Implementations/ViewServices/ModuleMessageViewService.cs:43 | the relation is appended under the next id; the other tables are unchanged |
| EntityStore.Store.UpdateRelation | contentapi/Controllers/EntityBaseController.cs:138 | the relation at its place is replaced; nothing else changes |
| EntityStore.Store.DeleteRelation | contentapi/Services/Views/Implementations/WatchViewService.cs:44 | exactly that relation is removed; nothing else changes |
| EntityStore.Store.WritePackage | contentapi/Controllers/EntityBaseController.cs:177 | a fault leaves the store unchanged; otherwise the linked package is appended to the three tables |
| Numbers.NegateLong | contentapi/Services/Implementations/ViewServices/ActivityViewService.cs:31 | unchecked 64-bit negation: the result stays in range, is -x for in-range x other than long.MinValue, and leaves long.MinValue fixed |
| Numbers.NegateLongTwice | contentapi/Services/Implementations/ViewServices/ActivityViewService.cs:31-35 | negating twice gives the value back |
| Numbers.LongToString | contentapi/Services/Implementations/ViewSources/_BaseViewSource.cs:82 | the decimal text of a number is never empty |
| Numbers.ParseLong | contentapi/Controllers/GenericControllers.cs:120 | a successful parse lies in the `long` range |
| Numbers.ParseOfToString | contentapi/Controllers/GenericControllers.cs:116-127 | parsing the printed form of a `long` gives it back |
| Views.DictAdd | contentapi/Services/Implementations/ViewServices/ContentViewService.cs:66 | Dictionary.Add succeeds exactly when the key is absent, and then appends the entry; otherwise DuplicateKey |
| Views.DictAddAll | contentapi/Services/Implementations/ViewServices/ContentViewService.cs:65-66 | a run of Dictionary.Add calls fails only with DuplicateKey |
| Views.DictAddAllExactly | contentapi/Services/Implementations/ViewServices/ContentViewService.cs:65-66 | a sequence of Adds succeeds exactly when all keys stay distinct, and then holds each entry in order |
| Views.DictFromPairs | contentapi/Services/Implementations/ViewServices/ContentViewService.cs:65-66 | Adds into an empty dictionary succeed exactly when the pairs form a dictionary, and then hold them in order |
| HistoryControllers.InactiveNeverActive | contentapi/Controllers/EntityBaseController.cs:134 | a relation value marked inactive never reads as active |
| HistoryControllers.RelationIndexOfKind | contentapi/Controllers/EntityBaseController.cs:51 | the position of the first relation of that type, or -1 when none has it |
| HistoryControllers.GetRelation | contentapi/Controllers/EntityBaseController.cs:45-51 | a relation of the package with that type, or none exactly when there is none |
| HistoryControllers.ActiveIn | contentapi/Controllers/EntityBaseController.cs:219-226 | exactly the relations that mark an active revision of the stand-in |
| HistoryControllers.RevisionIds | contentapi/Controllers/EntityBaseController.cs:247 | the EntityId2 of each relation, in order |
| HistoryControllers.ActiveSearchExactly | contentapi/Controllers/EntityBaseController.cs:219-226 | GetActiveRelation's relation search and value filter select exactly the stand-in's active relations |
| HistoryControllers.StandInIdsExactly | contentapi/Controllers/EntityBaseController.cs:233-248 | ConvertStandInIdsAsync's search and its LIKE filter select exactly the stand-in's active relations |
| HistoryControllers.EntityBaseController.StandInLink | contentapi/Controllers/EntityBaseController.cs:65-66 | a new active stand-in relation from the view's id, dated now |
| HistoryControllers.EntityBaseController.ConvertFromView | contentapi/Controllers/EntityBaseController.cs:57-70 | the package is always a new entity (id 0) of the controller's type with the view's create date, and its last relation is an active stand-in link from view.id |
| HistoryControllers.EntityBaseController.ConvertFromViewStandIn | contentapi/Controllers/EntityBaseController.cs:60-67 | the stand-in relation of a converted view is that link, and the package is unsaved |
| HistoryControllers.EntityBaseController.ConvertToView | contentapi/Controllers/EntityBaseController.cs:39-54 | fails (a null stand-in relation) exactly when there is no stand-in relation or a date is missing; otherwise the id is the stand-in, the edit date is the link's and the create date is the entity's |
| HistoryControllers.EntityBaseController.ViewRoundTrip | contentapi/Controllers/EntityBaseController.cs:39-70 | a converted view reads back with its id and create date, with the conversion time as its edit date |
| HistoryControllers.EntityBaseController.ViewResult | contentapi/Controllers/EntityBaseController.cs:319-323 | succeeds exactly when every package converts, and then gives each package's view at its position; a failure is the fault of some package that does not convert |
| HistoryControllers.EntityBaseController.GetStandInAsync | contentapi/Controllers/EntityBaseController.cs:88-96 | succeeds exactly when an entity with that id exists and has the stand-in type; otherwise InvalidOperation "No entity with id " followed by the id in decimal |
| HistoryControllers.EntityBaseController.GetActiveRelation | contentapi/Controllers/EntityBaseController.cs:219-226 | OnlySingle of the stand-in's active relations: none, the one, or a fault for several |
| HistoryControllers.EntityBaseController.FindByIdAsync | contentapi/Controllers/EntityBaseController.cs:103-113 | null for no active revision, InvalidOperation for several, otherwise the package of the single active revision |
| HistoryControllers.EntityBaseController.CreateStandInAsync | contentapi/Controllers/EntityBaseController.cs:78-86 | exactly one entity is added: a stand-in, created now, under the next id |
| HistoryControllers.EntityBaseController.LatestActive | contentapi/Controllers/EntityBaseController.cs:126-127 | fails with InvalidOperation when there is no single active relation or no active content; otherwise the stand-in's only active relation and the stored content it points at |
| HistoryControllers.EntityBaseController.Inactivated | contentapi/Controllers/EntityBaseController.cs:134 | the relation whose value is the inactive key followed by the override, or by the old value without its active prefix |
| HistoryControllers.EntityBaseController.Historic | contentapi/Controllers/EntityBaseController.cs:135 | the content whose type is the history key followed by its old type |
| HistoryControllers.EntityBaseController.MarkLatestInactive | contentapi/Controllers/EntityBaseController.cs:121-141 | a failure changes nothing; otherwise it returns copies of the relation and content as stored, and marks those two in place, inactive and historic |
| HistoryControllers.EntityBaseController.NoneActiveAfterMark | contentapi/Controllers/EntityBaseController.cs:134-138 | after marking its only active relation, the stand-in has no active relation |
| HistoryControllers.EntityBaseController.DeleteEntity | contentapi/Controllers/EntityBaseController.cs:194-197 | a soft delete: MarkLatestInactive with the delete action as the override |
| HistoryControllers.EntityBaseController.DeleteEntityCheck | contentapi/Controllers/EntityBaseController.cs:204-212 | a failed lookup passes its fault on; a found package whose type starts with the controller's type is returned; a missing package or one of another type is InvalidOperation("No entity with that ID and type!") |
| HistoryControllers.EntityBaseController.LinkedActive | contentapi/Controllers/EntityBaseController.cs:171-177 | once saved, a converted view's package has exactly one active relation, its stand-in link |
| HistoryControllers.EntityBaseController.ActiveAfterWrite | contentapi/Controllers/EntityBaseController.cs:177 | storing that package adds exactly its link to the stand-in's active relations |
| HistoryControllers.EntityBaseController.ModifySearchAsync | contentapi/Controllers/EntityBaseController.cs:260-280 | the limit is clamped; a blank type becomes "%" behind the controller's type; requested ids become their active revisions, or exactly [long.MaxValue] when there are none; the object is returned |
| HistoryControllers.EntityBaseController.PostCleanAsync | contentapi/Controllers/EntityBaseController.cs:300-317 | a view without an id is created now; one with an id takes its stand-in's create date and needs an existing revision of the controller's type; nothing else in the view changes |
| HistoryControllers.EntityBaseController.PostCleanUpdate | contentapi/Controllers/EntityBaseController.cs:282-291 | succeeds exactly when the stand-in is dated and an existing entity of the controller's type is given; a missing one is a null dereference |
| HistoryControllers.EntityBaseController.SentinelFindsNothing | contentapi/Controllers/EntityBaseController.cs:276 | while ids stay in the `long` range, no entity has the sentinel id long.MaxValue |
| HistoryControllers.EntityBaseController.WriteRestoreCopies | contentapi/Controllers/EntityBaseController.cs:182 | the saved relation and content are written back over their own places |
| HistoryControllers.EntityBaseController.Relinked | contentapi/Controllers/EntityBaseController.cs:161 | pointing a converted view's stand-in link at a stand-in is the same as converting the view with that id |
| HistoryControllers.EntityBaseController.WriteNewStandIn | contentapi/Controllers/EntityBaseController.cs:155-162 | the stand-in is created first and stays even when the package write fails; on success the package, linked to the new stand-in, follows it, and its link is the stand-in's only new active relation |
| HistoryControllers.EntityBaseController.MarkRevision | contentapi/Controllers/EntityBaseController.cs:163-172 | the stand-in must exist; then its active relation and content are marked, and it has no active relation left |
| HistoryControllers.EntityBaseController.WriteRevision | contentapi/Controllers/EntityBaseController.cs:163-184 | a failure leaves the store as it was, by rollback when the package write fails; on success the old revision is marked and the new one is the stand-in's only active relation |
| HistoryControllers.EntityBaseController.WritePackageOrRestore | contentapi/Controllers/EntityBaseController.cs:174-184 | a failing write restores the saved copies and raises the fault again; otherwise the package is appended |
| HistoryControllers.EntityBaseController.MarkedFound | contentapi/Controllers/EntityBaseController.cs:130-131 | with unique ids, records kept for a rollback are found again where they were marked |
| HistoryControllers.EntityBaseController.WriteViewAsync | contentapi/Controllers/EntityBaseController.cs:144-187 | overall write; a view without an id gets a fresh stand-in, adding exactly one active relation for it (its only one when none named the fresh id before); a view with an id marks its previous revision and then has exactly one active relation, the new one; a failed write leaves relations and values unchanged |
| GenericControllers.ToView | contentapi/Controllers/GenericControllers.cs:231 | the view carries the record's id, create date and data |
| GenericControllers.NewModel | contentapi/Controllers/GenericControllers.cs:178 | a converted view reads back as itself, with status 0 |
| GenericControllers.MapInto | contentapi/Controllers/GenericControllers.cs:189 | mapping a view into a record reads back as the view and keeps the record's status |
| GenericControllers.PreInsertCheck | contentapi/Controllers/GenericControllers.cs:179-186 | id and status become 0 and the date becomes now, whatever the client sent; the data is kept |
| GenericControllers.InsertIgnoresClient | contentapi/Controllers/GenericControllers.cs:179-186 | two posts with the same data normalise to the same record, and normalising twice is normalising once |
| GenericControllers.PutPreConversionCheck | contentapi/Controllers/GenericControllers.cs:330-335 | the incoming view takes the existing id and create date and keeps its data |
| GenericControllers.UpdateKeepsIdentity | contentapi/Controllers/GenericControllers.cs:330-335 | an update changes only the data: id, create date and status stay the existing ones |
| GenericControllers.SoftDelete | contentapi/Controllers/GenericControllers.cs:312 | the Deleted bits become set and every other bit of the status is kept |
| GenericControllers.SoftDeleteNoChange | contentapi/Controllers/GenericControllers.cs:312 | a status already marked deleted is left as it was |
| GenericControllers.SoftDeleteIdempotent | contentapi/Controllers/GenericControllers.cs:312 | deleting twice is deleting once |
| GenericControllers.ClaimTypeIgnoresCase | contentapi/Controllers/GenericControllers.cs:108 | a claim type that differs only in letter case ("UID") is the uid claim, while a longer one is not |
| GenericControllers.FindFirstValue | contentapi/Controllers/GenericControllers.cs:108 | the value of the first claim whose type equals the field ignoring letter case, or none exactly when no claim has such a type |
| GenericControllers.GetCurrentField | contentapi/Controllers/GenericControllers.cs:103-114 | no user and a missing claim fail with their two InvalidOperation messages; otherwise the first claim value |
| GenericControllers.GetCurrentUid | contentapi/Controllers/GenericControllers.cs:116-127 | -1 when the uid claim is missing or unparsable, otherwise the parsed uid |
| GenericControllers.UidOfPrintedClaim | contentapi/Controllers/GenericControllers.cs:116-127 | a uid claim holding the printed form of a `long` gives that uid |
| GenericControllers.NoUidClaim | contentapi/Controllers/GenericControllers.cs:116-127 | without a user, or without a claim whose type is "uid" in any letter case, the uid is -1 |
| GenericControllers.FindUser | contentapi/Controllers/GenericControllers.cs:131 | a user row with that id, or none exactly when no row has it |
| GenericControllers.SetLogField | contentapi/Controllers/GenericControllers.cs:172 | only the field the controller names is set to the id; every other field is kept |
| GenericControllers.LogRecord | contentapi/Controllers/GenericControllers.cs:78-92 | the action and time are recorded; actionUserId is null exactly when the uid is negative; exactly the controller's field holds the id |
| GenericControllers.BaseHooks | contentapi/Controllers/GenericControllers.cs:174-192 | the base extension points: every check passes and every record is listable |
| GenericControllers.IndexOfId | contentapi/Controllers/GenericControllers.cs:148 | a position holding that id, or negative exactly when none does |
| GenericControllers.GetList | contentapi/Controllers/GenericControllers.cs:196-220 | the query applied to the listable records; an InvalidOperation from it becomes BadRequest with its message; other faults pass through |
| GenericControllers.ListedExactly | contentapi/Controllers/GenericControllers.cs:394-398 | the records handed to the query are exactly the base records the hooks list |
| GenericControllers.GenericController.CurrentUser | contentapi/Controllers/GenericControllers.cs:129-132 | a user row it returns is a stored user whose id is the current uid |
| GenericControllers.GenericController.CanUserAsync | contentapi/Controllers/GenericControllers.cs:134-142 | holds exactly when the requester has a user row whose role is granted the permission |
| GenericControllers.GenericController.AnonymousCannot | contentapi/Controllers/GenericControllers.cs:134-142 | with no uid claim in any letter case, and no user row under a negative id, the requester can do nothing |
| GenericControllers.GenericController.GetExisting | contentapi/Controllers/GenericControllers.cs:144-155 | the stored record with that id; NotFound exactly when there is none |
| GenericControllers.GenericController.LogOf | contentapi/Controllers/GenericControllers.cs:72-96 | nothing when logging is off; otherwise one record of that action and time, with a null actionUserId exactly when the uid is negative |
| GenericControllers.GenericController.LogAct | contentapi/Controllers/GenericControllers.cs:72-96 | the log grows by exactly LogOf |
| GenericControllers.GenericController.Get | contentapi/Controllers/GenericControllers.cs:156-221 | GetList over the stored records: reads only the listable ones and turns an InvalidOperation from the query into BadRequest; after a successful query it succeeds exactly when a User is present and its claim types are distinct (no User is NullReference, a repeated type DuplicateKey), and then holds each queried record's view in order, no links, and the claims as the dictionary; nothing changes |
| GenericControllers.CollectionResultOf | contentapi/Controllers/GenericControllers.cs:156-164 | the collection result: the items, an empty link list, and the claims as a dictionary; fails with DuplicateKey exactly when two claims share a type, and with NullReference without a User |
| GenericControllers.RepeatedClaimTypeFaults | contentapi/Controllers/GenericControllers.cs:162 | claims ("uid","1") and ("uid","2") make the result DuplicateKey, while "uid" and "UID" are distinct keys |
| GenericControllers.GenericController.GetSingle | contentapi/Controllers/GenericControllers.cs:224-241 | a missing record is NotFound; a refused read fails and logs nothing; otherwise the view is returned and one View is logged |
| GenericControllers.GenericController.Post | contentapi/Controllers/GenericControllers.cs:244-270 | a failed check changes nothing; otherwise the normalised record is appended under the next id, returned and logged |
| GenericControllers.GenericController.Put | contentapi/Controllers/GenericControllers.cs:274-301 | a missing record is NotFound; a refused check changes nothing; otherwise only that record's data changes, and its id and create date are kept |
| GenericControllers.GenericController.Delete | contentapi/Controllers/GenericControllers.cs:304-323 | a missing record is NotFound; a refused check changes nothing; otherwise the record stays with its Deleted bit set, other bits kept, and Delete is logged |
| GenericControllers.AccessPostCheck | contentapi/Controllers/GenericControllers.cs:347-358 | passes exactly when the access string is well formed; otherwise BadRequest("Malformed access string (CRUD)") |
| GenericControllers.AccessPutCheck | contentapi/Controllers/GenericControllers.cs:361-377 | the format check first, then Unauthorized when CanUpdate fails, then BadRequest when a non-empty access list finds a different number of users; passes exactly when none of these applies |
| GenericControllers.FilterNoDuplicates | contentapi/Controllers/GenericControllers.cs:372 | the users found for distinct rows are distinct |
| GenericControllers.CardOfDistinct | contentapi/Controllers/GenericControllers.cs:374 | a duplicate-free list has as many elements as its set |
| GenericControllers.AccessListCountExactly | contentapi/Controllers/GenericControllers.cs:369-375 | with unique user ids and distinct list keys, the counts agree exactly when every listed id names an existing user |
| GenericControllers.FoundIdsDistinct | contentapi/Controllers/GenericControllers.cs:372 | the ids of the found users are distinct |
| GenericControllers.NamedFound | contentapi/Controllers/GenericControllers.cs:372 | a user whose id is listed is found |
| GenericControllers.FoundListed | contentapi/Controllers/GenericControllers.cs:372 | every found id is listed and names a user |
| GenericControllers.UsersInOrder | contentapi/Controllers/GenericControllers.cs:372 | two found users at different places have different ids |
| GenericControllers.AccessReadCheck | contentapi/Controllers/GenericControllers.cs:380-384 | passes exactly when CanRead holds; otherwise Unauthorized("You do not have permission to read this record") |
| GenericControllers.AccessDeleteCheck | contentapi/Controllers/GenericControllers.cs:387-391 | passes exactly when CanDelete holds; otherwise Unauthorized("You do not have permission to delete this record") |
| GenericControllers.AccessHooks | contentapi/Controllers/GenericControllers.cs:338-399 | the access controller's extension points are exactly the checks above, and only readable records are listable |
| GenericControllers.AccessListsReadable | contentapi/Controllers/GenericControllers.cs:394-398 | the access controller's listing keeps exactly the readable records |
| CategoriesController.ParentCheck | Controllers/CategoriesController.cs:32-38 | no parent passes; a parent passes exactly when some stored category has its id; otherwise BadRequest("Nonexistent parent category!") |
| CategoriesController.PostPreInsertCheck | Controllers/CategoriesController.cs:28-39 | the base normalisation runs first and the parent check sees its result; it succeeds exactly when that check passes |
| CategoriesController.InsertCheckIgnoresClient | Controllers/CategoriesController.cs:28-39 | the id, status and date the client sends cannot change the outcome |
| CategoriesController.DeletedParentAccepted | Controllers/CategoriesController.cs:34-37 | a soft-deleted parent is still found, so it is accepted |
| CategoriesController.CategoriesHooks | Controllers/CategoriesController.cs:28-39 | the parent check is the controller's only extra rule; the other extension points are the base ones |
| CategoriesController.PostChecksNormalised | Controllers/CategoriesController.cs:30-37 | through Post, the parent check passes exactly when PostPreInsertCheck accepts the converted view |
| CategoryController.CreateBasePackage | contentapi/Controllers/CategoryController.cs:25-28 | the view's name and description become the entity's name and content, in a new unsaved entity |
| CategoryController.CreateBaseView | contentapi/Controllers/CategoryController.cs:30-36 | the name comes from the entity name and the description from the entity content |
| CategoryController.FieldsRoundTrip | contentapi/Controllers/CategoryController.cs:25-36 | the category fields survive CreateBasePackage followed by CreateBaseView |
| CategoryController.CategoryViewRoundTrip | contentapi/Controllers/CategoryController.cs:25-36 | a category view written through the history controller reads back as it was, with the write time as its edit date |
| CategoryController.CleanViewGeneralAsync | contentapi/Controllers/CategoryController.cs:56-61 | a requester who is not super fails before the base cleaning; a super requester gets the base outcome |
| CategoryController.DeleteCheckAsync | contentapi/Controllers/CategoryController.cs:63-68 | a base failure wins; a package that passes it is returned only to a super requester |
| CategoryController.CategoryQuery | contentapi/Controllers/CategoryController.cs:46-53 | without parent ids the readable rows are kept; otherwise exactly those that are children of a listed parent |
| CategoryController.NoParentsSelectsNothing | contentapi/Controllers/CategoryController.cs:50-51 | the parent filter with no parents selects nothing, which is why it is guarded |

## Left out

- The module engine (ModuleService, Lua compilation, the long-poll message bus) is not part of this model. `ModuleServiceTests.ReadMessagesInstant` is modelled only as a scenario over the visibility rule. `sendmessage` is taken to write a message from the requester to the target, because the engine is not shown.
- EF Core, IQueryable execution, async/await and SaveChangesAsync are not modelled. Queries are sequences and the provider is the `EntityStore.Store` class. Store writes never fail, except the package write in WriteViewAsync, whose failure is the `fault` parameter.
- DateTime.Now / UtcNow are the `now` parameter, and dates are integers. The DateTime Kind rewrites in GroupAsync and SearchCommentsAsync are left out, as is `createDateProper`'s Kind change; BaseMapper reads the nullable date as is.
- The SQL `LIKE` of `EF.Functions.Like` is modelled as case-sensitive `%`/`_` matching without escapes. The database's collation is not modelled.
- Helpers whose source is not shown get documented definitions:
  - TypeSet is prefix concatenation, TypeIs is a starts-with test and TypeSub strips a prefix;
  - NewEntity, NewValue and NewRelation give unsaved records created now; a null stand-in name is modelled as "";
  - OnlySingle gives none, one, or a fault.
- The controllers read their keys from an injected keys object whose class is not shown; it has members, such as StandInRelation, ActiveValue, InactiveValue and StandInType, that Keys.cs lacks. Those keys become the `HistoryKeys` parameter. HistoryKey and DeleteAction are read from that same object, so they are part of the parameter even though Keys.cs also defines them ("_" and "!d"). WatchRelation, VoteRelation, Votes.VoteWeights and ModelStatus.Deleted are not in Keys.cs either and are parameters (`watchRelation`, vote weights, `deleted`).
- HistoryKeysOk: the history lemmas and WriteViewAsync's active-relation clauses assume the injected keys are wildcard-free and that neither the active nor the inactive value is a prefix of the other. The values themselves are not shown.
- The view sources and view services read the `Keys` module's constants, which are taken to be Keys.cs's values.
- ApplyFromStandard / ApplyToStandard are taken to copy the id and creation date and to set the content type. ModuleMessageViewSource's FromView/ToView are not shown; they are taken to negate the receiver into EntityId2, as the visibility filter requires.
- AutoMapper is not shown. It is modelled as same-named field copying: a view has no status, so Post_ConvertItem gives status 0 and Put_ConvertItem keeps the existing status. The GenericModel and GenericView shapes are not shown either. Each record is taken to have an id, a 32-bit status, a create date and its own data.
- AccessService is not shown, so its format, read, update and delete rules and the access-list keys are parameters (`AccessRules`). The access list is a dictionary, so its keys are distinct.
- QueryService.ApplyQuery is a parameter that may fail. Faults other than InvalidOperation pass through Get.
- SetLogField is not shown and is modelled as one chosen field (`LogField`). Put_PreInsertCheck is the base no-op. GenericControllerRaw without GenericController's Put override is not modelled separately.
- FailUnlessRequestSuper is not shown and is modelled as an AuthorizationFailure("Requester is not super") when the requester is not super. BasePermissionActionController's CleanViewGeneralAsync and DeleteCheckAsync are parameters. WhereParents is modelled as LimitByParents, and BasicReadQuery is a parameter.
- PostCleanAsync calls GetStandInAsync and FindByIdAsync twice. These calls are pure reads, so the model calls each once.
- ConvertToView's `HasRelation` check comes after a dereference of the same relation, so it never fires. The model fails with the null dereference instead.
- ContentViewSource.FinalizeQuery: the floating-point vote and watch sums and their SQL ordering are not modelled. Only the weight-table construction, the multiplier selection and the fallback are modelled.
- The search provider's fallback ordering in ApplyFinal is not modelled. Only its paging is.
- FinalizeQuery<T> (the base view source's distinct-and-page step) is modelled as the distinct ids, paged by ApplyFinal, joined back to their rows. The database's row order is not modelled.
- EntityPackage.GetRelation and HasRelation are not shown; they are taken as the first relation of that type in the package, or none.
- The provider's package write is not shown. It is taken to number the entity, then its values, then its relations from the store's next id, and to point each value (entityId) and relation (entityId2) at the entity. The store's relation insert always appends under a fresh id, so a non-zero id on a message written by AddMessageAsync is replaced.
- FindRelationByIdAsync is not shown; it is taken to be Store.RelationById, the stored relation with that id.
- IActivityService.ConvertToView is not shown; it is taken to be the activity mapping profile (ActivityViewService.cs:32-35), with the content type supplied by `contentTypeOf`.
- The watch converter is not shown; it is the `toView` parameter, which also receives a null relation. provider.DeleteAsync(null) is taken to throw a null reference, so WatchViewService.DeleteAsync fails and changes nothing when the system asks for an unknown id.
- SearchAsync's in-place `search.Type = "%"` is returned as the `updated` search, because ActivitySearch is a value here; aliasing of the caller's object is not modelled.
- SearchCommentsAsync's comment search has no limit clamp in the source; its permission-checked, finalised query is the `readComments` parameter.
- WriteViewAsync: the store does not forbid relations that name an id not yet allocated, so for a fresh stand-in the model promises exactly one active relation only when no relation already named the fresh id.
- FindFirstValue: claim types compare ordinally ignoring case; only the ASCII letters are folded here, so non-ASCII case pairs are not treated as equal.
- GenericController.Get: the collection result is a record of the items, the links and the claims dictionary, not the anonymous JSON object; Get passes no links, so the link list is always empty. The model's absent User (`user == None`) makes `User.Claims` a null dereference.
- ContentViewService.IsAssociated: the culture-sensitive `StartsWith(string)` is modelled as an ordinal prefix test. Culture rules (ignorable characters, linguistic equivalence) are not modelled.
- Models/Category.cs is not part of this model. It holds data only.
- The ASP.NET plumbing, DI, auth token issuance (StreamController), ContentDbContext, SystemConfig, Startup, DefaultServiceProvider, ContentEntityProviderExtensions and the chaining resolver are not part of this model.

## Findings

| source | as written | input that shows it | evidently intended | confidence | as-written member | corrected member |
|---|---|---|---|---|---|---|
| contentapi/Services/Implementations/ViewSources/_BaseStandardViewSource.cs:25 | `Keys.AssociatedValueKey + search.AssociatedKey ?? "%"` parses as `(prefix + key) ?? "%"`. A string sum is never null, so a missing key gives the bare pattern "@", which matches no associated key. | AssociatedKey = null, AssociatedValue = "red": the value ("@color", "red") is not found | `prefix + (key ?? "%")`, so that a search by value alone matches any associated key | not executed | StandardViewSource.KeyPatternAsWritten, StandardViewSource.KeyPatternAsWrittenMissesValues, StandardViewSource.ModifySearchAsWrittenNullKey, StandardViewSource.ModifySearchAsWrittenMissesValue | StandardViewSource.KeyPattern, StandardViewSource.AnyAssociatedKeyMatches, StandardViewSource.ModifySearchCorrectedNullKey |
