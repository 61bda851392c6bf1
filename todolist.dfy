/** The to-do list component: an in-memory list of items, and the `onChange`
    callback it calls with the list after each change the user makes. The DOM is
    left out; each `onChange` call is recorded, with its argument, in
    `notifications`. */
module TodoListView {
  import opened JsValues

  /** The list without the items whose id is `id` (the delete handler's filter). */
  function WithoutId(todos: seq<Todo>, id: string): (r: seq<Todo>)
    ensures |r| <= |todos|
    ensures forall t :: t in r <==> t in todos && t.id != id
    ensures (forall i :: 0 <= i < |todos| ==> todos[i].id != id) ==> r == todos
  {
    FilterIdentity(todos, (t: Todo) => t.id != id);
    Filter(todos, (t: Todo) => t.id != id)
  }

  /** Deleting from a concatenation deletes from each part: the survivors keep their order. */
  lemma WithoutIdAppend(a: seq<Todo>, b: seq<Todo>, id: string)
    ensures WithoutId(a + b, id) == WithoutId(a, id) + WithoutId(b, id)
  {
    FilterAppend(a, b, (t: Todo) => t.id != id);
  }

  /** Deleting an id twice is deleting it once. */
  lemma WithoutIdIdempotent(todos: seq<Todo>, id: string)
    ensures WithoutId(WithoutId(todos, id), id) == WithoutId(todos, id)
  {
  }

  /** The list with the completion flag of item `i` flipped. */
  function Toggled(todos: seq<Todo>, i: nat): (r: seq<Todo>)
    requires i < |todos|
    ensures |r| == |todos|
    ensures r[i] == Todo(todos[i].id, todos[i].title, !todos[i].completed)
    ensures forall j :: 0 <= j < |todos| && j != i ==> r[j] == todos[j]
  {
    todos[i := todos[i].(completed := !todos[i].completed)]
  }

  /** Toggling the same item twice restores the list. */
  lemma ToggledTwice(todos: seq<Todo>, i: nat)
    requires i < |todos|
    ensures Toggled(Toggled(todos, i), i) == todos
  {
  }

  class TodoList {
    /** `this.todos`. */
    var todos: seq<Todo>
    /** Set only while `setTodos` re-renders. */
    var suspendNotify: bool
    /** Whether the owner passed a function as `onChange`. */
    const hasOnChange: bool
    /** The argument of every `onChange` call so far, oldest first. */
    var notifications: seq<seq<Todo>>

    /** Between handlers the flag is clear. */
    ghost predicate Valid()
      reads this
    {
      !suspendNotify
    }

    /** What one not-suppressed `notifyChange` adds to `notifications`. */
    function Notice(list: seq<Todo>): seq<seq<Todo>>
      reads this
    {
      if hasOnChange then [list] else []
    }

    constructor (hasOnChange: bool)
      ensures Valid() && this.hasOnChange == hasOnChange
      ensures todos == [] && notifications == []
    {
      this.hasOnChange := hasOnChange;
      todos := [];
      suspendNotify := false;
      notifications := [];
    }

    /** `notifyChange`: calls `onChange` with the list unless notifications are suspended. */
    method NotifyChange()
      modifies this`notifications
      ensures suspendNotify ==> notifications == old(notifications)
      ensures !suspendNotify ==> notifications == old(notifications) + Notice(todos)
    {
      if !suspendNotify && hasOnChange {
        notifications := notifications + [todos];
      }
    }

    /** `render`: the DOM work is left out; it ends with `notifyChange`. */
    method Render()
      modifies this`notifications
      ensures suspendNotify ==> notifications == old(notifications)
      ensures !suspendNotify ==> notifications == old(notifications) + Notice(todos)
    {
      NotifyChange();
    }

    /** `setTodos`: stores an array as it is and anything else as `[]`, without notifying. */
    method SetTodos(value: Body<Todo>)
      requires Valid()
      modifies this
      ensures Valid()
      ensures todos == if value.ArrayValue? then value.items else []
      ensures notifications == old(notifications)
    {
      suspendNotify := true;
      todos := if value.ArrayValue? then value.items else [];
      Render();
      suspendNotify := false;
    }

    /** The submit handler: appends one open item with the trimmed title, unless that is empty. */
    method Add(input: string, id: string)
      requires Valid()
      modifies this
      ensures Valid()
      ensures Trim(input) == "" ==> todos == old(todos) && notifications == old(notifications)
      ensures Trim(input) != "" ==>
        && todos == old(todos) + [Todo(id, Trim(input), false)]
        && notifications == old(notifications) + Notice(todos)
    {
      var value := Trim(input);
      if value == "" {
        return;
      }
      todos := todos + [Todo(id, value, false)];
      Render();
    }

    /** The toggle button of the item rendered at position `i`: flips that item, then
        notifies, then re-renders (which notifies again). */
    method Toggle(i: nat)
      requires Valid()
      requires i < |todos|
      modifies this
      ensures Valid()
      ensures todos == Toggled(old(todos), i)
      ensures notifications == old(notifications) + Notice(todos) + Notice(todos)
    {
      todos := todos[i := todos[i].(completed := !todos[i].completed)];
      NotifyChange();
      Render();
    }

    /** The delete button of an item: drops every item with its id, then notifies and re-renders. */
    method Delete(id: string)
      requires Valid()
      modifies this
      ensures Valid()
      ensures todos == WithoutId(old(todos), id)
      ensures notifications == old(notifications) + Notice(todos) + Notice(todos)
    {
      todos := Filter(todos, (t: Todo) => t.id != id);
      NotifyChange();
      Render();
    }
  }
}
