/**
 * `LlamaBotRails::ControllerExtensions`: the per-controller allow-list
 * `llama_bot_permitted_actions` (a class attribute, inherited until a class
 * sets its own value), the `llama_bot_allow` macro that fills it, and the
 * process-wide set `LlamaBotRails.allowed_routes` of "controller_path#action"
 * keys it also feeds.
 */
module ControllerExtensions {
  import opened Wrappers
  import Arrays

  /** An argument of `llama_bot_allow`: a symbol, a string or `nil`. */
  datatype Action = Sym(name: string) | Str(text: string) | Nil

  /** `to_s`: symbols give their name, strings themselves, `nil` the empty string. */
  function ToS(a: Action): string {
    match a
    case Sym(n) => n
    case Str(t) => t
    case Nil => ""
  }

  function ToStrings(actions: seq<Action>): (r: seq<string>)
    ensures |r| == |actions|
    ensures forall i :: 0 <= i < |r| ==> r[i] == ToS(actions[i])
  {
    if actions == [] then [] else [ToS(actions[0])] + ToStrings(actions[1..])
  }

  /** The key recorded in the global registry for an allowed action. */
  function RouteKey(controllerPath: string, action: string): string {
    controllerPath + "#" + action
  }

  /** The registry keys for the given actions of one controller. */
  function RouteKeys(controllerPath: string, acts: seq<string>): set<string> {
    set a | a in acts :: RouteKey(controllerPath, a)
  }

  /** `LlamaBotRails.allowed_routes`: a `Set`, shared by every controller class. */
  class RouteRegistry {
    var routes: set<string>

    constructor ()
      ensures routes == {}
    {
      routes := {};
    }

    /** `acts.each { |a| allowed_routes << "#{controller_path}##{a}" }` */
    method AddAll(controllerPath: string, acts: seq<string>)
      modifies this
      ensures routes == old(routes) + RouteKeys(controllerPath, acts)
    {
      for i := 0 to |acts|
        invariant routes == old(routes) + RouteKeys(controllerPath, acts[..i])
      {
        assert acts[..i + 1] == acts[..i] + [acts[i]];
        routes := routes + {RouteKey(controllerPath, acts[i])};
      }
      assert acts[..|acts|] == acts;
    }
  }

  /** A controller class that includes the extension, or a subclass of one. */
  class ControllerClass {
    const controllerPath: string
    const parent: ControllerClass?
    ghost const depth: nat
    ghost const Ancestors: set<ControllerClass>
    /** The value this class itself holds for the class attribute; None while it inherits. */
    var ownPermitted: Option<seq<string>>
    /** `@_llama_bot_allow_called`, an instance variable of this class object alone. */
    var allowCalled: bool

    /** The superclass chain is finite and acyclic, and `Ancestors` is exactly that chain. */
    ghost predicate Valid()
      decreases depth
    {
      if parent == null then Ancestors == {}
      else
        && parent.depth < depth
        && Ancestors == {parent} + parent.Ancestors
        && (forall a :: a in Ancestors ==> a.depth < depth)
        && parent.Valid()
    }

    /** The class that includes the extension: the attribute starts as `[]`. */
    constructor Including(controllerPath: string)
      ensures Valid() && this.controllerPath == controllerPath && parent == null
      ensures PermittedActions() == [] && !allowCalled
    {
      this.controllerPath := controllerPath;
      parent := null;
      depth := 0;
      Ancestors := {};
      ownPermitted := Some([]);
      allowCalled := false;
    }

    /** A subclass: it reads its superclass's attribute until it sets its own. */
    constructor Subclass(controllerPath: string, parent: ControllerClass)
      requires parent.Valid()
      ensures Valid() && this.controllerPath == controllerPath && this.parent == parent
      ensures PermittedActions() == parent.PermittedActions() && !allowCalled
    {
      this.controllerPath := controllerPath;
      this.parent := parent;
      depth := parent.depth + 1;
      Ancestors := {parent} + parent.Ancestors;
      ownPermitted := None;
      allowCalled := false;
      new;
      assert forall a :: a in parent.Ancestors ==> a.depth < parent.depth by {
        if parent.parent != null { }
      }
    }

    /** Reading `llama_bot_permitted_actions` on this class. */
    function PermittedActions(): seq<string>
      requires Valid()
      reads this, Ancestors
      decreases depth
    {
      match ownPermitted
      case Some(acts) => acts
      case None => if parent == null then [] else parent.PermittedActions()
    }

    /**
     * The class_attribute writer `self.llama_bot_permitted_actions = list`:
     * this class now holds its own value, and its superclass keeps its list.
     */
    method SetPermittedActions(list: seq<string>)
      requires Valid()
      modifies this
      ensures Valid() && PermittedActions() == list && allowCalled == old(allowCalled)
      ensures parent != null ==> parent.PermittedActions() == old(parent.PermittedActions())
    {
      assert this !in Ancestors;
      ownPermitted := Some(list);
    }

    /**
     * `llama_bot_allow(*actions)`. The first call on a class starts from
     * `[]` (ignoring the inherited list); later calls start from the current
     * list. The new list is the `uniq` of the start followed by the actions
     * as strings. When the registry exists, every "controller_path#action"
     * is added to it.
     */
    method LlamaBotAllow(actions: seq<Action>, registry: RouteRegistry?)
      requires Valid()
      modifies this, registry
      ensures Valid() && allowCalled
      ensures Arrays.NoDups(PermittedActions())
      ensures PermittedActions()
           == Arrays.Uniq((if old(allowCalled) then old(PermittedActions()) else []) + ToStrings(actions))
      ensures registry != null ==> registry.routes == old(registry.routes) + RouteKeys(controllerPath, ToStrings(actions))
      ensures parent != null ==> parent.PermittedActions() == old(parent.PermittedActions())
    {
      var acts := ToStrings(actions);
      var current: seq<string>;
      if allowCalled {
        current := PermittedActions();
      } else {
        current := [];
        allowCalled := true;
      }
      Arrays.UniqNoDups(current + acts);
      SetPermittedActions(Arrays.Uniq(current + acts));
      if registry != null {
        registry.AddAll(controllerPath, acts);
      }
    }
  }

  /** The list holds no duplicates after any call, and every given action is in it. */
  lemma AllowedListIsDuplicateFree(start: seq<string>, actions: seq<Action>)
    ensures Arrays.NoDups(Arrays.Uniq(start + ToStrings(actions)))
    ensures forall a :: a in actions ==> ToS(a) in Arrays.Uniq(start + ToStrings(actions))
  {
    var acts := ToStrings(actions);
    Arrays.UniqNoDups(start + acts);
    forall a | a in actions ensures ToS(a) in Arrays.Uniq(start + acts) {
      var i :| 0 <= i < |actions| && actions[i] == a;
      assert (start + acts)[|start| + i] == ToS(a);
    }
  }

  /**
   * A repeated call keeps the existing (duplicate-free) entries first, in
   * their order, and appends only actions not already listed, in the order
   * of their first occurrence.
   */
  lemma RepeatedAllowAppendsOnlyNew(current: seq<string>, actions: seq<Action>)
    requires Arrays.NoDups(current)
    ensures Arrays.Uniq(current + ToStrings(actions)) == current + Arrays.Without(Arrays.Uniq(ToStrings(actions)), current)
  {
    Arrays.UniqAppend(current, ToStrings(actions));
    Arrays.UniqOfNoDups(current);
  }

  /** Every registry key for an allowed action names the controller and the action. */
  lemma RouteKeysNameTheirActions(controllerPath: string, actions: seq<Action>)
    ensures forall a :: a in actions ==> RouteKey(controllerPath, ToS(a)) in RouteKeys(controllerPath, ToStrings(actions))
    ensures |RouteKeys(controllerPath, ToStrings(actions))| <= |actions|
  {
    var acts := ToStrings(actions);
    forall a | a in actions ensures RouteKey(controllerPath, ToS(a)) in RouteKeys(controllerPath, acts) {
      var i :| 0 <= i < |actions| && actions[i] == a;
      assert acts[i] == ToS(a);
    }
    RouteKeysSize(controllerPath, acts);
  }

  lemma {:induction false} RouteKeysSize(controllerPath: string, acts: seq<string>)
    ensures |RouteKeys(controllerPath, acts)| <= |acts|
    decreases |acts|
  {
    if acts != [] {
      var last := acts[|acts| - 1];
      var init := acts[..|acts| - 1];
      assert acts == init + [last];
      assert RouteKeys(controllerPath, acts) == RouteKeys(controllerPath, init) + {RouteKey(controllerPath, last)};
      RouteKeysSize(controllerPath, init);
    } else {
      assert RouteKeys(controllerPath, acts) == {};
    }
  }
}
