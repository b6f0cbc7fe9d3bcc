/**
 * The persisted `"todos"` key: absent (`None`) or holding an ordered list of
 * labels. The serialised form is taken to be the list itself. `Load`, `Save`
 * and `Remove` give the value each store helper leaves behind; every write
 * replaces the whole list.
 */
module Store {
  import opened JsArray

  datatype Option<+T> = None | Some(value: T)

  /** The list the helpers read: an absent key behaves as the empty list. */
  function Load(key: Option<seq<string>>): (todos: seq<string>)
    ensures key.None? ==> todos == []
  {
    match key
    case None => []
    case Some(todos) => todos
  }

  /** `saveLocalTodos(todo)`: read, push at the end, write back. */
  function Save(key: Option<seq<string>>, todo: string): (r: Option<seq<string>>)
    ensures r.Some? && Load(r) == Load(key) + [todo]
  {
    var stored := Load(key);
    Some(stored + [todo])
  }

  /** `removeLocalTodos` for an entry labelled `todo`: read, `splice(indexOf(todo), 1)`, write back. */
  function Remove(key: Option<seq<string>>, todo: string): (r: Option<seq<string>>)
    ensures r.Some?
  {
    var stored := Load(key);
    Some(Splice(stored, IndexOf(stored, todo), 1))
  }

  /** Saving `todos` one after the other, as a run of `saveLocalTodos` calls. */
  function SaveAll(key: Option<seq<string>>, todos: seq<string>): Option<seq<string>>
    decreases |todos|
  {
    if todos == [] then key else SaveAll(Save(key, todos[0]), todos[1..])
  }

  /** Round trip: after saving L1..Ln the key reads back as the old list followed by L1..Ln. */
  lemma {:induction false} SaveAllLoad(key: Option<seq<string>>, todos: seq<string>)
    ensures Load(SaveAll(key, todos)) == Load(key) + todos
    ensures todos != [] ==> SaveAll(key, todos).Some?
    decreases |todos|
  {
    if todos != [] {
      SaveAllLoad(Save(key, todos[0]), todos[1..]);
      assert Load(key) + [todos[0]] + todos[1..] == Load(key) + todos;
      if todos[1..] == [] {
        assert SaveAll(key, todos) == Save(key, todos[0]);
      }
    }
  }

  /** From an absent key, saving L1..Ln leaves exactly [L1..Ln] stored. */
  lemma SaveAllFromAbsent(todos: seq<string>)
    ensures Load(SaveAll(None, todos)) == todos
  {
    SaveAllLoad(None, todos);
  }

  /** A present label: exactly its first occurrence goes, the rest keep their order. */
  lemma RemovePresent(key: Option<seq<string>>, todo: string)
    requires todo in Load(key)
    ensures Load(Remove(key, todo)) == RemoveFirst(Load(key), todo)
    ensures multiset(Load(Remove(key, todo))) == multiset(Load(key)) - multiset{todo}
  {
    SpliceIndexOfPresent(Load(key), todo);
    RemoveFirstMultiset(Load(key), todo);
  }

  /**
   * An absent label: `indexOf` gives -1 and `splice(-1, 1)` drops the last
   * stored label; an empty or absent list is written back as empty.
   */
  lemma RemoveAbsent(key: Option<seq<string>>, todo: string)
    requires todo !in Load(key)
    ensures Remove(key, todo).Some?
    ensures var s := Load(key); Load(Remove(key, todo)) == if s == [] then [] else s[..|s| - 1]
  {
    SpliceIndexOfAbsent(Load(key), todo);
  }

  /** Whatever the label, a non-empty list loses exactly one entry and an empty one stays empty. */
  lemma RemoveLength(key: Option<seq<string>>, todo: string)
    ensures |Load(Remove(key, todo))| == if Load(key) == [] then 0 else |Load(key)| - 1
  {
    if todo in Load(key) {
      RemovePresent(key, todo);
    } else {
      RemoveAbsent(key, todo);
    }
  }

  /**
   * Removing the same label twice (two trash clicks before the entry leaves the
   * view): when `todo` is stored once, the second call finds nothing and
   * drops the last remaining label, which is a different one.
   */
  lemma RemoveTwice(key: Option<seq<string>>, todo: string)
    requires multiset(Load(key))[todo] == 1 && |Load(key)| >= 2
    ensures var once := RemoveFirst(Load(key), todo);
      && Load(Remove(Remove(key, todo), todo)) == once[..|once| - 1]
      && once[|once| - 1] != todo
  {
    var s := Load(key);
    RemovePresent(key, todo);
    var once := RemoveFirst(s, todo);
    assert multiset(once)[todo] == 0;
    assert todo !in once;
    RemoveAbsent(Remove(key, todo), todo);
  }
}
