/**
 * The page's state and its handlers. `store` is the `"todos"` key, `view` the
 * children of `.todo-list` in order, `input` the text field. Each handler runs
 * to completion before the next event; the trash button's `transitionend`
 * callback is the separate step `FinishRemoval`.
 */
module TodoApp {
  import opened JsArray
  import opened Store
  import opened View

  const TrashBtn := "trash-btn"
  const CompleteBtn := "complete-btn"

  /** `classList[0] === name`: the first class token is `name` (an empty list has none). */
  predicate FirstClassIs(classes: seq<string>, name: string)
  {
    |classes| > 0 && classes[0] == name
  }

  /**
   * Dispatch sees the first class token only: a target whose list starts with
   * `first` is taken for `name` exactly when `first` is `name`, whatever
   * tokens follow, and a target with no class is taken for nothing.
   */
  lemma OnlyFirstToken(first: string, rest: seq<string>, name: string)
    ensures FirstClassIs([first] + rest, name) <==> first == name
    ensures !FirstClassIs([], name)
  {
  }

  /** The stored labels are, counted with repetition, the labels of the live entries of `v`. */
  ghost predicate InSync(key: Option<seq<string>>, v: seq<Entry>)
  {
    multiset(Load(key)) == multiset(Live(v))
  }

  /** The stored labels are the live entries' labels of `v`, in order. */
  ghost predicate InOrder(key: Option<seq<string>>, v: seq<Entry>)
  {
    Load(key) == Live(v)
  }

  class App {
    var store: Option<seq<string>>
    var view: seq<Entry>
    var input: string

    /** A page just opened over whatever the key already holds: nothing rendered, empty field. */
    constructor (stored: Option<seq<string>>)
      ensures store == stored && view == [] && input == ""
    {
      store := stored;
      view := [];
      input := "";
    }

    /** The list the store helpers read. */
    function Todos(): seq<string>
      reads this
    {
      Load(store)
    }

    /** The stored labels are, counted with repetition, the labels of the live entries. */
    ghost predicate Synced()
      reads this
    {
      InSync(store, view)
    }

    /** The stored labels are the live entries' labels in view order. */
    ghost predicate Mirrored()
      reads this
    {
      InOrder(store, view)
    }

    /** `saveLocalTodos(todo)`: the key ends up present, holding the old list plus `todo` at the end. */
    method SaveLocalTodos(todo: string)
      modifies this`store
      ensures store.Some? && Todos() == old(Todos()) + [todo]
      ensures store == Save(old(store), todo)
    {
      var todos: seq<string>;
      if store.None? {
        todos := [];
      } else {
        todos := store.value;
      }
      todos := todos + [todo];
      store := Some(todos);
    }

    /**
     * `getLocalTodos`: one new entry per stored label, in stored order, after the
     * entries already shown; the key is only read.
     */
    method GetLocalTodos()
      modifies this`view
      ensures view == old(view) + Rendered(Todos())
      ensures Live(view) == Live(old(view)) + Todos()
      ensures old(view) == [] ==> Mirrored() && Synced()
      ensures store == old(store)
    {
      var todos: seq<string>;
      if store.None? {
        todos := [];
      } else {
        todos := store.value;
      }
      var k := 0;
      while k < |todos|
        invariant 0 <= k <= |todos|
        invariant view == old(view) + Rendered(todos[..k])
      {
        RenderedAppend(todos[..k], [todos[k]]);
        assert todos[..k + 1] == todos[..k] + [todos[k]];
        view := view + [NewEntry(todos[k])];
        k := k + 1;
      }
      assert todos[..k] == todos;
      LiveAppend(old(view), Rendered(todos));
      LiveRendered(todos);
    }

    /**
     * `removeLocalTodos` for an entry labelled `todo`: a present label loses
     * its first occurrence; an absent one makes `splice(-1, 1)` drop the last
     * stored label. The key is written in every case.
     */
    method RemoveLocalTodos(todo: string)
      modifies this`store
      ensures store == Remove(old(store), todo)
      ensures todo in old(Todos()) ==> Todos() == RemoveFirst(old(Todos()), todo)
      ensures todo !in old(Todos()) ==> Todos() == if old(Todos()) == [] then [] else old(Todos())[..|old(Todos())| - 1]
    {
      var todos: seq<string>;
      if store.None? {
        todos := [];
      } else {
        todos := store.value;
      }
      ghost var before := todos;
      todos := Splice(todos, IndexOf(todos, todo), 1);
      store := Some(todos);
      if todo in before {
        SpliceIndexOfPresent(before, todo);
      } else {
        SpliceIndexOfAbsent(before, todo);
      }
    }

    /**
     * `addTodo`: the field's text, whatever it is (the empty text too), becomes
     * a new entry at the end of the view and a new label at the end of the
     * store; then the field is cleared.
     */
    method AddTodo()
      modifies this
      ensures view == old(view) + [NewEntry(old(input))]
      ensures store == Save(old(store), old(input))
      ensures Todos() == old(Todos()) + [old(input)]
      ensures input == ""
      ensures old(Synced()) ==> Synced()
      ensures old(Mirrored()) ==> Mirrored()
    {
      var entry := NewEntry(input);
      SaveLocalTodos(input);
      view := view + [entry];
      input := "";
      LiveAppend(old(view), [entry]);
    }

    /**
     * The trash branch of `deleteCheck` for entry `i`: the entry is marked
     * `slide` and its label is removed from the store at once.
     */
    method Trash(i: nat)
      requires i < |view|
      modifies this
      ensures view == old(view)[i := old(view)[i].(slide := true)]
      ensures store == Remove(old(store), old(view)[i].todo)
      ensures input == old(input)
      ensures !old(view)[i].slide && old(Synced()) ==> Synced()
      ensures !old(view)[i].slide && old(view)[i].todo !in Live(old(view)[..i]) && old(Mirrored()) ==> Mirrored()
    {
      view := view[i := view[i].(slide := true)];
      RemoveLocalTodos(view[i].todo);
      if !old(view)[i].slide && old(Synced()) {
        TrashKeepsCount(old(view), old(store), i);
      }
      if !old(view)[i].slide && old(Mirrored()) && old(view)[i].todo !in Live(old(view)[..i]) {
        TrashKeepsOrder(old(view), old(store), i);
      }
    }

    /** The complete branch of `deleteCheck` for entry `i`: only that entry's `completed` flips. */
    method ToggleComplete(i: nat)
      requires i < |view|
      modifies this`view
      ensures view == old(view)[i := old(view)[i].(completed := !old(view)[i].completed)]
      ensures Live(view) == Live(old(view))
      ensures old(Synced()) ==> Synced()
      ensures old(Mirrored()) ==> Mirrored()
    {
      view := view[i := view[i].(completed := !view[i].completed)];
      LiveIgnoresFlags(old(view), view);
    }

    /**
     * `deleteCheck` on a click whose target has class list `classes` and sits
     * in entry `i`. Only the first class token is looked at: `trash-btn` marks
     * the entry `slide` and removes its label from the store at once;
     * `complete-btn` toggles `completed` on that entry; anything else does
     * nothing.
     */
    method DeleteCheck(classes: seq<string>, i: nat)
      requires FirstClassIs(classes, TrashBtn) || FirstClassIs(classes, CompleteBtn) ==> i < |view|
      modifies this
      ensures input == old(input)
      ensures FirstClassIs(classes, TrashBtn) ==>
        && view == old(view)[i := old(view)[i].(slide := true)]
        && store == Remove(old(store), old(view)[i].todo)
      ensures FirstClassIs(classes, CompleteBtn) ==>
        && view == old(view)[i := old(view)[i].(completed := !old(view)[i].completed)]
        && store == old(store)
      ensures !FirstClassIs(classes, TrashBtn) && !FirstClassIs(classes, CompleteBtn) ==>
        view == old(view) && store == old(store)
      ensures !(FirstClassIs(classes, TrashBtn) && old(view)[i].slide) && old(Synced()) ==> Synced()
      ensures FirstClassIs(classes, TrashBtn) && !old(view)[i].slide && old(view)[i].todo !in Live(old(view)[..i]) && old(Mirrored()) ==> Mirrored()
    {
      assert TrashBtn != CompleteBtn by { assert TrashBtn[0] != CompleteBtn[0]; }
      if FirstClassIs(classes, TrashBtn) {
        Trash(i);
      }
      if FirstClassIs(classes, CompleteBtn) {
        ToggleComplete(i);
      }
    }

    /**
     * The `transitionend` callback of a trashed entry: the entry leaves the
     * view and every other entry stays, in order.
     */
    method FinishRemoval(i: nat)
      requires i < |view| && view[i].slide
      modifies this`view
      ensures view == old(view)[..i] + old(view)[i + 1..]
      ensures Live(view) == Live(old(view))
      ensures old(Synced()) ==> Synced()
      ensures old(Mirrored()) ==> Mirrored()
    {
      view := view[..i] + view[i + 1..];
      DetachSlid(old(view), i);
    }

    /**
     * `filterTodo(value)`: sets every entry's display from the filter rule;
     * labels, `completed` and `slide` marks and the store are untouched.
     */
    method FilterTodo(value: string)
      modifies this`view
      ensures |view| == |old(view)|
      ensures forall k :: 0 <= k < |view| ==> view[k] == old(view)[k].(visible := Shown(value, old(view)[k]))
      ensures value == All ==> forall k :: 0 <= k < |view| ==> view[k].visible
      ensures value == Completed ==> forall k :: 0 <= k < |view| ==> (view[k].visible <==> view[k].completed)
      ensures value == Incomplete ==> forall k :: 0 <= k < |view| ==> (view[k].visible <==> !view[k].completed)
      ensures value != All && value != Completed && value != Incomplete ==> view == old(view)
      ensures Live(view) == Live(old(view))
    {
      var k := 0;
      while k < |view|
        invariant 0 <= k <= |view| == |old(view)|
        invariant forall j :: 0 <= j < k ==> view[j] == old(view)[j].(visible := Shown(value, old(view)[j]))
        invariant forall j :: k <= j < |view| ==> view[j] == old(view)[j]
      {
        view := view[k := view[k].(visible := Shown(value, view[k]))];
        k := k + 1;
      }
      LiveIgnoresFlags(old(view), view);
    }
  }

  /**
   * A trash click on a live entry keeps the store in step with the view: the
   * label leaves both, once.
   */
  lemma TrashKeepsCount(v: seq<Entry>, key: Option<seq<string>>, i: nat)
    requires i < |v| && !v[i].slide
    requires InSync(key, v)
    ensures InSync(Remove(key, v[i].todo), v[i := v[i].(slide := true)])
  {
    var x := v[i].todo;
    LiveSlide(v, i);
    var before, after := Live(v[..i]), Live(v[i + 1..]);
    assert multiset(Live(v)) == multiset(before) + multiset{x} + multiset(after);
    assert x in multiset(Load(key));
    RemovePresent(key, x);
  }

  /**
   * When no earlier live entry carries the clicked entry's label, the first
   * match `removeLocalTodos` finds is the clicked entry's own, so a store that
   * mirrored the view in order still does.
   */
  lemma TrashKeepsOrder(v: seq<Entry>, key: Option<seq<string>>, i: nat)
    requires i < |v| && !v[i].slide
    requires InOrder(key, v) && v[i].todo !in Live(v[..i])
    ensures InOrder(Remove(key, v[i].todo), v[i := v[i].(slide := true)])
  {
    var x := v[i].todo;
    LiveSlide(v, i);
    var before, after := Live(v[..i]), Live(v[i + 1..]);
    var s := before + [x] + after;
    assert s[..|before|] == before;
    assert s[|before| + 1..] == after;
    RemoveFirstAt(s, x, |before|);
    RemovePresent(key, x);
  }

  /** Two clicks on an entry's complete button give back the original view; the store is not touched. */
  method CompleteTwice(app: App, i: nat)
    requires i < |app.view|
    modifies app
    ensures app.view == old(app.view) && app.store == old(app.store) && app.input == old(app.input)
  {
    assert !FirstClassIs([CompleteBtn], TrashBtn) by { assert CompleteBtn[0] != TrashBtn[0]; }
    app.DeleteCheck([CompleteBtn], i);
    app.DeleteCheck([CompleteBtn], i);
  }

  /**
   * Two trash clicks on the first of two restored entries before its
   * `transitionend` fires: the second `removeLocalTodos` finds no "a", so
   * `splice(-1, 1)` drops "b", which is still live in the view.
   */
  method TrashTwiceBeforeTransition()
  {
    assert FirstClassIs([TrashBtn], TrashBtn) && !FirstClassIs([TrashBtn], CompleteBtn) by {
      assert TrashBtn[0] != CompleteBtn[0];
    }
    var app := new App(Some(["a", "b"]));
    app.GetLocalTodos();
    assert app.view[0].todo == "a" && app.view[1].todo == "b" && !app.view[1].slide;
    app.DeleteCheck([TrashBtn], 0);
    assert app.Todos() == ["b"] by {
      RemovePresent(Some(["a", "b"]), "a");
    }
    app.DeleteCheck([TrashBtn], 0);
    assert app.Todos() == [] by {
      assert "a" != "b" by { assert "a"[0] != "b"[0]; }
      RemoveAbsent(Some(["b"]), "a");
    }
    assert app.view[1].todo == "b" && !app.view[1].slide;
  }
}
