/** The category hook: the shared store bookkeeping on categories. It has
    no toggle, and deleting a category does not touch any task that still
    refers to it. */
module CategoryStore {
  import opened Outcomes
  import opened Sequences
  import opened Records
  import opened EntityStore

  /** The hook's state on mount: no categories, loading. */
  function InitialCategories(): (s: Store<Category>)
    ensures s.items == [] && s.loading
  {
    Init()
  }

  /** fetchCategories, from issue to settlement. */
  function FetchCategories(s: Store<Category>, outcome: Outcome<seq<Category>>): (r: Store<Category>)
    ensures !r.loading
    ensures outcome.Ok? ==> r.items == outcome.value
    ensures outcome.Err? ==> r.items == s.items
  {
    Fetch(s, outcome)
  }

  /** createCategory: prepends and returns the created category, or rethrows. */
  function CreateCategory(s: Store<Category>, outcome: Outcome<Category>): (r: Reply<Category, Category>)
    ensures r.result == outcome
    ensures outcome.Ok? ==> r.store.items == [outcome.value] + s.items && r.store.loading == s.loading
    ensures outcome.Err? ==> r.store == s
  {
    Create(s, outcome)
  }

  /** updateCategory: replaces every category whose id is `id`, or rethrows. */
  function UpdateCategory(s: Store<Category>, id: Id, outcome: Outcome<Category>): (r: Reply<Category, Category>)
    ensures r.result == outcome
    ensures outcome.Ok? ==> |r.store.items| == |s.items| && r.store.loading == s.loading
    ensures outcome.Ok? ==> forall i :: 0 <= i < |s.items| ==>
      r.store.items[i] == if s.items[i].id == id then outcome.value else s.items[i]
    ensures outcome.Err? ==> r.store == s
  {
    Update(s, CategoryKey, id, outcome)
  }

  /** deleteCategory: drops every category whose id is `id`, or rethrows. */
  function DeleteCategory(s: Store<Category>, id: Id, outcome: Outcome<()>): (r: Reply<Category, ()>)
    ensures r.result == outcome
    ensures outcome.Ok? ==> forall c :: c in r.store.items <==> c in s.items && c.id != id
    ensures outcome.Ok? ==>
      forall c :: multiset(r.store.items)[c] == (if c.id == id then 0 else multiset(s.items)[c])
    ensures outcome.Ok? ==> r.store.loading == s.loading
    ensures outcome.Err? ==> r.store == s
  {
    Delete(s, CategoryKey, id, outcome)
  }

  /** Deleting the same category id twice is deleting it once. */
  lemma DeleteCategoryIdempotent(s: Store<Category>, id: Id)
    ensures var once := DeleteCategory(s, id, Ok(())).store;
            DeleteCategory(once, id, Ok(())).store == once
  {
    DeleteIdempotent(s, CategoryKey, id);
  }

  /** With distinct ids, deleting the category at `i` removes exactly it,
      keeping the rest in order. */
  lemma DeleteCategoryRemovesOne(s: Store<Category>, i: nat)
    requires DistinctKeys(s.items, CategoryKey)
    requires i < |s.items|
    ensures DeleteCategory(s, s.items[i].id, Ok(())).store.items == s.items[..i] + s.items[i + 1..]
  {
    DeleteRemovesOne(s, CategoryKey, i);
  }
}
