/** The view records the services exchange with clients, and the dictionary they carry. */
module Views {
  import opened Wrappers
  import opened Seqs

  /** A `Dictionary<string, string>`, as its entries in insertion (enumeration) order. */
  type Dict = seq<(string, string)>

  function DictKeys(d: Dict): (ks: seq<string>)
    ensures |ks| == |d| && forall i :: 0 <= i < |d| ==> ks[i] == d[i].0
  {
    Map(d, (e: (string, string)) => e.0)
  }

  /** A dictionary holds every key once. */
  predicate IsDict(d: Dict)
  {
    NoDuplicates(DictKeys(d))
  }

  /** `Dictionary.Add`: appends the entry, or throws ArgumentException when the key is present. */
  function DictAdd(d: Dict, k: string, v: string): (r: Result<Dict>)
    ensures r.Success? <==> k !in DictKeys(d)
    ensures r.Success? ==> r.value == d + [(k, v)]
    ensures r.Failure? ==> r.error == DuplicateKey
  {
    if k in DictKeys(d) then Failure(DuplicateKey) else Success(d + [(k, v)])
  }

  /** A successful Add keeps every key once. */
  lemma DictAddKeepsDict(d: Dict, k: string, v: string)
    requires IsDict(d) && DictAdd(d, k, v).Success?
    ensures IsDict(DictAdd(d, k, v).value)
  {
    assert DictKeys(d + [(k, v)]) == DictKeys(d) + [k];
    NoDuplicatesSnoc(DictKeys(d), k);
  }

  /** `Add` for each pair in turn: the first pair whose key is already present makes it throw. */
  function DictAddAll(d: Dict, ps: seq<(string, string)>): (r: Result<Dict>)
    ensures r.Failure? ==> r.error == DuplicateKey
    decreases |ps|
  {
    if ps == [] then Success(d)
    else
      match DictAdd(d, ps[0].0, ps[0].1)
      case Failure(e) => Failure(e)
      case Success(d') => DictAddAll(d', ps[1..])
  }

  /** Adding pairs one by one succeeds exactly when all keys stay distinct, and then appends them. */
  lemma {:induction false} DictAddAllExactly(d: Dict, ps: seq<(string, string)>)
    requires IsDict(d)
    ensures DictAddAll(d, ps).Success? <==> IsDict(d + ps)
    ensures DictAddAll(d, ps).Success? ==> DictAddAll(d, ps).value == d + ps
    decreases |ps|
  {
    if ps == [] {
      assert d + ps == d;
    } else {
      var k := ps[0].0;
      assert d + ps == (d + [ps[0]]) + ps[1..];
      if k in DictKeys(d) {
        var j :| 0 <= j < |d| && DictKeys(d)[j] == k;
        assert DictKeys(d + ps)[j] == DictKeys(d + ps)[|d|];
      } else {
        DictAddKeepsDict(d, k, ps[0].1);
        DictAddAllExactly(d + [ps[0]], ps[1..]);
      }
    }
  }

  /** Adding pairs into an empty dictionary succeeds exactly when they form one, and gives them. */
  lemma DictFromPairs(ps: seq<(string, string)>)
    ensures DictAddAll([], ps).Success? <==> IsDict(ps)
    ensures DictAddAll([], ps).Success? ==> DictAddAll([], ps).value == ps
  {
    DictAddAllExactly([], ps);
    assert [] + ps == ps;
  }

  /** ContentView: a standard view (id, dates) with a name, content, a type, keywords and values. */
  datatype ContentView = ContentView(
    id: int, createDate: Option<int>, editDate: Option<int>,
    name: string, content: string, kind: string,
    keywords: seq<string>, values: Dict)

  /** `new ContentView()`: everything empty. */
  const EmptyContentView := ContentView(0, None, None, "", "", "", [], [])

  /**
   * ContentSearch with the fields of BaseContentSearch it inherits: the id and paging fields,
   * parent ids, the associated key/value filter, the keyword, the type pattern and the sort.
   */
  datatype ContentSearch = ContentSearch(
    ids: seq<int>, limit: int, skip: int,
    parentIds: seq<int>, associatedKey: Option<string>, associatedValue: Option<string>,
    keyword: Option<string>, kind: Option<string>, sort: Option<string>, reverse: bool)
}
