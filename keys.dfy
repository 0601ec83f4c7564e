/**
 * The key constants (contentapi/Keys.cs) and the reflection-based uniqueness check run at start-up.
 * Every key is a short prefix that other code prepends to types, values and relation kinds.
 */
module Keys {
  import opened Wrappers
  import opened Seqs

  const UserIdentifier := "uid"

  // Symbolic keys, prepended to something else
  const AssociatedValueKey := "@"
  const VariableKey := "v:"
  const HistoryKey := "_"
  const ActivityKey := "."

  // General relation kinds
  const CreatorRelation := "rc"
  const ParentRelation := "rp"
  const HistoryRelation := "rh"

  // General value keys
  const KeywordKey := "#"

  // Access relations
  const CreateAction := "!c"
  const ReadAction := "!r"
  const UpdateAction := "!u"
  const DeleteAction := "!d"

  // Entity types
  const UserType := "tu"
  const CategoryType := "tc"
  const ContentType := "tp"
  const FileType := "tf"

  // User value keys
  const EmailKey := "se"
  const PasswordHashKey := "sph"
  const PasswordSaltKey := "sps"
  const RegistrationCodeKey := "srk"

  // Comment encodings
  const CommentHack := "Zcc"
  const CommentHistoryHack := "Zcu"
  const CommentDeleteHack := "Zcd"

  /** The values of all the properties of Keys, in declaration order (what reflection enumerates). */
  function AllKeys(): seq<string>
  {
    [UserIdentifier, AssociatedValueKey, VariableKey, HistoryKey, ActivityKey,
     CreatorRelation, ParentRelation, HistoryRelation, KeywordKey,
     CreateAction, ReadAction, UpdateAction, DeleteAction,
     UserType, CategoryType, ContentType, FileType,
     EmailKey, PasswordHashKey, PasswordSaltKey, RegistrationCodeKey,
     CommentHack, CommentHistoryHack, CommentDeleteHack]
  }

  /**
   * EnsureAllUnique on a list of property values: it compares the number of distinct values with
   * the number of values and throws InvalidOperationException when they differ. It reads its
   * argument only, so it changes no state.
   */
  function EnsureAllUnique(values: seq<string>): (r: Outcome)
    ensures r.Fail? <==> exists i, j :: 0 <= i < j < |values| && values[i] == values[j]
    ensures r.Fail? ==> r.error == InvalidOperation("There is a duplicate key!")
  {
    DistinctLength(values);
    if |Distinct(values)| != |values| then Fail(InvalidOperation("There is a duplicate key!")) else Pass
  }

  /** The shipped constants are pairwise distinct, so the start-up check passes. */
  lemma ShippedKeysUnique()
    ensures EnsureAllUnique(AllKeys()) == Pass
  {
    var keys := AllKeys();
    assert keys == ["uid", "@", "v:", "_", ".", "rc", "rp", "rh", "#", "!c", "!r", "!u", "!d",
                    "tu", "tc", "tp", "tf", "se", "sph", "sps", "srk", "Zcc", "Zcu", "Zcd"];
    assert NoDuplicates(keys);
  }

  /** No associated-value key, whatever the name after the prefix, is the keyword key. */
  lemma KeywordNeverAssociated(name: string)
    ensures !(AssociatedValueKey <= KeywordKey)
    ensures AssociatedValueKey + name != KeywordKey
  {
    assert (AssociatedValueKey + name)[0] == '@';
  }
}
