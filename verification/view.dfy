/**
 * The children of `.todo-list` as records. Each entry is a `div.todo` holding
 * the label's `li` and the complete and trash buttons; the model keeps what the
 * handlers read and write: its label, the `completed` and `slide` classes and
 * whether it is displayed.
 */
module View {

  datatype Entry = Entry(todo: string, completed: bool, slide: bool, visible: bool)

  /** A freshly built entry: not completed, not sliding, displayed. */
  function NewEntry(todo: string): (e: Entry)
    ensures e.todo == todo && !e.completed && !e.slide && e.visible
  {
    Entry(todo, false, false, true)
  }

  /** One new entry per label, in order, as the restore loop and `addTodo` build them. */
  function Rendered(todos: seq<string>): (r: seq<Entry>)
    ensures |r| == |todos|
    ensures forall k :: 0 <= k < |r| ==> r[k].todo == todos[k] && !r[k].completed && !r[k].slide && r[k].visible
  {
    if todos == [] then [] else [NewEntry(todos[0])] + Rendered(todos[1..])
  }

  lemma {:induction false} RenderedAppend(a: seq<string>, b: seq<string>)
    ensures Rendered(a + b) == Rendered(a) + Rendered(b)
  {
    if a != [] {
      assert (a + b)[1..] == a[1..] + b;
      RenderedAppend(a[1..], b);
    }
  }

  /** The labels of the entries not yet marked for removal, in view order. */
  function Live(view: seq<Entry>): seq<string>
  {
    if view == [] then []
    else (if view[0].slide then [] else [view[0].todo]) + Live(view[1..])
  }

  /** A label is live exactly when some entry not marked `slide` carries it. */
  lemma {:induction false} LiveMembers(view: seq<Entry>, x: string)
    ensures x in Live(view) <==> exists k :: 0 <= k < |view| && !view[k].slide && view[k].todo == x
  {
    if view != [] {
      LiveMembers(view[1..], x);
      if exists k :: 0 <= k < |view| && !view[k].slide && view[k].todo == x {
        var k :| 0 <= k < |view| && !view[k].slide && view[k].todo == x;
        if k > 0 {
          assert view[1..][k - 1] == view[k];
        }
      }
      if exists k :: 0 <= k < |view[1..]| && !view[1..][k].slide && view[1..][k].todo == x {
        var k :| 0 <= k < |view[1..]| && !view[1..][k].slide && view[1..][k].todo == x;
        assert view[k + 1] == view[1..][k];
      }
    }
  }

  lemma {:induction false} LiveAppend(a: seq<Entry>, b: seq<Entry>)
    ensures Live(a + b) == Live(a) + Live(b)
  {
    if a != [] {
      assert (a + b)[1..] == a[1..] + b;
      LiveAppend(a[1..], b);
    } else {
      assert a + b == b;
    }
  }

  /** Restored entries are all live: their live labels are the stored labels, in order. */
  lemma {:induction false} LiveRendered(todos: seq<string>)
    ensures Live(Rendered(todos)) == todos
  {
    if todos != [] {
      LiveRendered(todos[1..]);
    }
  }

  /** Live labels depend only on each entry's label and `slide` mark, not on `completed` or display. */
  lemma {:induction false} LiveIgnoresFlags(v: seq<Entry>, w: seq<Entry>)
    requires |v| == |w|
    requires forall k :: 0 <= k < |v| ==> v[k].todo == w[k].todo && v[k].slide == w[k].slide
    ensures Live(v) == Live(w)
  {
    if v != [] {
      LiveIgnoresFlags(v[1..], w[1..]);
    }
  }

  /**
   * Marking a live entry `slide` takes its label out of the live labels and
   * leaves those before and after it in place.
   */
  lemma LiveSlide(v: seq<Entry>, i: nat)
    requires i < |v| && !v[i].slide
    ensures Live(v) == Live(v[..i]) + [v[i].todo] + Live(v[i + 1..])
    ensures Live(v[i := v[i].(slide := true)]) == Live(v[..i]) + Live(v[i + 1..])
  {
    var w := v[i := v[i].(slide := true)];
    assert v == v[..i] + [v[i]] + v[i + 1..];
    assert w == v[..i] + [w[i]] + v[i + 1..];
    LiveAppend(v[..i] + [v[i]], v[i + 1..]);
    LiveAppend(v[..i], [v[i]]);
    LiveAppend(v[..i] + [w[i]], v[i + 1..]);
    LiveAppend(v[..i], [w[i]]);
  }

  /** Detaching an entry already marked `slide` leaves the live labels as they were. */
  lemma DetachSlid(v: seq<Entry>, i: nat)
    requires i < |v| && v[i].slide
    ensures Live(v[..i] + v[i + 1..]) == Live(v)
  {
    var a, b := v[..i], v[i + 1..];
    assert v == a + v[i..];
    assert v[i..][1..] == b;
    LiveAppend(a, v[i..]);
    LiveAppend(a, b);
  }

  const All := "all"
  const Completed := "completed"
  const Incomplete := "incomplete"

  /**
   * The display an entry gets from the filter value `value`: the `switch` has
   * no default, so an unrecognised value keeps the current setting.
   */
  function Shown(value: string, e: Entry): (shown: bool)
    ensures value == All ==> shown
    ensures value == Completed ==> shown == e.completed
    ensures value == Incomplete ==> shown == !e.completed
    ensures value != All && value != Completed && value != Incomplete ==> shown == e.visible
  {
    if value == All then true
    else if value == Completed then e.completed
    else if value == Incomplete then !e.completed
    else e.visible
  }

  /**
   * The three recognised values partition the entries: `all` shows each one,
   * and each one is shown by exactly one of `completed` and `incomplete`.
   */
  lemma ShownPartitions(e: Entry)
    ensures Shown(All, e)
    ensures Shown(Completed, e) != Shown(Incomplete, e)
  {
    assert Completed != All by { assert Completed[0] != All[0]; }
    assert Incomplete != All by { assert Incomplete[0] != All[0]; }
    assert Incomplete != Completed by { assert Incomplete[0] != Completed[0]; }
  }
}
