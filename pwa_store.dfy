/** The install-prompt store (src/store/pwaStore.ts): the browser's deferred
    `beforeinstallprompt` event, if any, and whether the prompt is to be shown. */
module PwaStore {
  import opened JsBuiltins

  /** The browser's install event; only its identity matters here. */
  datatype PromptEvent = PromptEvent(id: nat)

  /** The two fields of the store, as a value. */
  datatype PwaState = PwaState(deferredPrompt: Option<PromptEvent>, showPrompt: bool)

  const Initial: PwaState := PwaState(None, false)

  /** The three setters, as transitions of the state. */
  datatype Action = SetDeferredPrompt(e: Option<PromptEvent>) | RequestShow | Clear

  function Apply(s: PwaState, a: Action): (t: PwaState)
    ensures a.SetDeferredPrompt? ==> t.deferredPrompt == a.e && t.showPrompt == s.showPrompt
    ensures a.RequestShow? ==> t.showPrompt && t.deferredPrompt == s.deferredPrompt
    ensures a.Clear? ==> t == Initial
  {
    match a
    case SetDeferredPrompt(e) => s.(deferredPrompt := e)
    case RequestShow => s.(showPrompt := true)
    case Clear => Initial
  }

  /** The state after a sequence of actions. */
  function Run(s: PwaState, actions: seq<Action>): PwaState
    decreases |actions|
  {
    if actions == [] then s else Run(Apply(s, actions[0]), actions[1..])
  }

  /** Clearing twice is clearing once. */
  lemma ClearIdempotent(s: PwaState)
    ensures Apply(Apply(s, Clear), Clear) == Apply(s, Clear)
  {
  }

  /** Whatever came before a clear is forgotten. */
  lemma {:induction false} ClearForgets(s: PwaState, before: seq<Action>, after: seq<Action>)
    ensures Run(s, before + [Clear] + after) == Run(Initial, after)
    decreases |before|
  {
    if before == [] {
      assert before + [Clear] + after == [Clear] + after;
    } else {
      assert (before + [Clear] + after)[1..] == before[1..] + [Clear] + after;
      ClearForgets(Apply(s, before[0]), before[1..], after);
    }
  }

  /** Setting and showing touch different fields, so their order does not matter. */
  lemma SetAndShowCommute(s: PwaState, e: Option<PromptEvent>)
    ensures Apply(Apply(s, SetDeferredPrompt(e)), RequestShow) == Apply(Apply(s, RequestShow), SetDeferredPrompt(e))
  {
  }

  class Store {
    var deferredPrompt: Option<PromptEvent>
    var showPrompt: bool

    function State(): PwaState
      reads this
    {
      PwaState(deferredPrompt, showPrompt)
    }

    constructor ()
      ensures State() == Initial
    {
      deferredPrompt := None;
      showPrompt := false;
    }

    method SetDeferredPromptTo(e: Option<PromptEvent>)
      modifies this`deferredPrompt
      ensures State() == Apply(old(State()), SetDeferredPrompt(e))
    {
      deferredPrompt := e;
    }

    method RequestShowPrompt()
      modifies this`showPrompt
      ensures State() == Apply(old(State()), RequestShow)
    {
      showPrompt := true;
    }

    method ClearPrompt()
      modifies this
      ensures State() == Apply(old(State()), Clear)
    {
      deferredPrompt := None;
      showPrompt := false;
    }
  }
}
