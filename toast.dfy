/** Toast notifications: the list the `useToast` hook keeps, the icon of a
    toast's type, and the single toast's visibility flag. */
module Toast {
  import opened Seqs
  import opened Text
  import opened Values

  /** A listed toast: its id, message, type (absent when not given),
      display time in milliseconds (absent when not given) and `show`. */
  datatype ToastItem = ToastItem(id: string, message: string, kind: Option<string>, duration: Option<int>, show: bool)

  /** `getIcon`: a check mark, a cross, a warning sign, and the information
      sign for `info` and every other type. */
  function Icon(kind: string): (r: string)
    ensures kind == "success" ==> r == "\U{2713}"
    ensures kind == "error" ==> r == "\U{2715}"
    ensures kind == "warning" ==> r == "\U{26A0}"
    ensures kind != "success" && kind != "error" && kind != "warning" ==> r == "\U{2139}"
  {
    match kind
    case "success" => "\U{2713}"
    case "error" => "\U{2715}"
    case "warning" => "\U{26A0}"
    case "info" => "\U{2139}"
    case _ => "\U{2139}"
  }

  /** The icon a `Toast` shows: its type defaults to `info`. */
  function ToastIcon(kind: Option<string>): (r: string)
    ensures kind == None ==> r == "\U{2139}"
    ensures kind.Some? ==> r == Icon(kind.value)
  {
    Icon(if kind.Some? then kind.value else "info")
  }

  /** The four icons differ from each other, so the type can be read off. */
  lemma IconsDistinct(a: string, b: string)
    requires a in {"success", "error", "warning", "info"} && b in {"success", "error", "warning", "info"}
    requires a != b
    ensures Icon(a) != Icon(b)
  {
  }

  /** The id `addToast` gives: `Date.now().toString()`. */
  function ToastId(now: nat): string
  {
    NatToString(now)
  }

  /** The entry `addToast` appends. */
  function NewToast(id: string, message: string, kind: Option<string>, duration: Option<int>): ToastItem
  {
    ToastItem(id, message, kind, duration, true)
  }

  /** The id a toast is removed by. */
  function ToastKey(t: ToastItem): string
  {
    t.id
  }

  /** `prev.filter(toast => toast.id !== id)`. */
  function Remove(toasts: seq<ToastItem>, id: string): seq<ToastItem>
  {
    RemoveKey(toasts, ToastKey, id)
  }

  /** Removing drops every toast with that id and keeps every other toast,
      as often as it was there and in order. */
  lemma RemoveDropsExactlyId(toasts: seq<ToastItem>, id: string)
    ensures forall t :: t in Remove(toasts, id) ==> t.id != id
    ensures forall t: ToastItem :: t.id != id ==> Count(Remove(toasts, id), t) == Count(toasts, t)
    ensures IsSubsequence(Remove(toasts, id), toasts)
  {
    RemoveKeyDropsExactly(toasts, ToastKey, id);
  }

  /** An unknown id leaves the list unchanged. */
  lemma RemoveUnknown(toasts: seq<ToastItem>, id: string)
    requires forall i :: 0 <= i < |toasts| ==> toasts[i].id != id
    ensures Remove(toasts, id) == toasts
  {
    RemoveKeyUnknown(toasts, ToastKey, id);
  }

  /** Adding a toast under an id no listed toast has, then removing that
      id, gives back the list as it was. */
  lemma AddThenRemove(toasts: seq<ToastItem>, item: ToastItem)
    requires forall i :: 0 <= i < |toasts| ==> toasts[i].id != item.id
    ensures Remove(toasts + [item], item.id) == toasts
  {
    RemoveKeyConcat(toasts, [item], ToastKey, item.id);
    assert Remove([item], item.id) == [] by {
      RemoveDropsExactlyId([item], item.id);
    }
    RemoveUnknown(toasts, item.id);
  }

  /** Two toasts added in the same millisecond share an id, so removing one
      removes both. */
  lemma SameMillisecondCollide(toasts: seq<ToastItem>, now: nat, m1: string, m2: string,
                               k1: Option<string>, k2: Option<string>)
    requires forall i :: 0 <= i < |toasts| ==> toasts[i].id != ToastId(now)
    ensures var id := ToastId(now);
            Remove(toasts + [NewToast(id, m1, k1, None)] + [NewToast(id, m2, k2, None)], id) == toasts
  {
    var id := ToastId(now);
    var a, b := NewToast(id, m1, k1, None), NewToast(id, m2, k2, None);
    RemoveKeyConcat(toasts + [a], [b], ToastKey, id);
    assert Remove([b], id) == [] by {
      RemoveDropsExactlyId([b], id);
    }
    AddThenRemove(toasts, a);
  }

  /** The list `useToast` keeps. */
  class ToastList {
    var toasts: seq<ToastItem>

    constructor ()
      ensures toasts == []
    {
      toasts := [];
    }

    /** `addToast`: one entry with `show` set goes at the end; its id, the
        clock reading `now` in decimal, is returned. */
    method AddToast(message: string, kind: Option<string>, duration: Option<int>, now: nat) returns (id: string)
      modifies this
      ensures id == ToastId(now)
      ensures toasts == old(toasts) + [NewToast(id, message, kind, duration)]
    {
      id := ToastId(now);
      toasts := toasts + [NewToast(id, message, kind, duration)];
    }

    /** `removeToast`. */
    method RemoveToast(id: string)
      modifies this
      ensures toasts == Remove(old(toasts), id)
    {
      toasts := Remove(toasts, id);
    }

    method ShowSuccess(message: string, duration: Option<int>, now: nat) returns (id: string)
      modifies this
      ensures id == ToastId(now)
      ensures toasts == old(toasts) + [NewToast(id, message, Some("success"), duration)]
    {
      id := AddToast(message, Some("success"), duration, now);
    }

    method ShowError(message: string, duration: Option<int>, now: nat) returns (id: string)
      modifies this
      ensures id == ToastId(now)
      ensures toasts == old(toasts) + [NewToast(id, message, Some("error"), duration)]
    {
      id := AddToast(message, Some("error"), duration, now);
    }

    method ShowWarning(message: string, duration: Option<int>, now: nat) returns (id: string)
      modifies this
      ensures id == ToastId(now)
      ensures toasts == old(toasts) + [NewToast(id, message, Some("warning"), duration)]
    {
      id := AddToast(message, Some("warning"), duration, now);
    }

    method ShowInfo(message: string, duration: Option<int>, now: nat) returns (id: string)
      modifies this
      ensures id == ToastId(now)
      ensures toasts == old(toasts) + [NewToast(id, message, Some("info"), duration)]
    {
      id := AddToast(message, Some("info"), duration, now);
    }
  }

  /** A success toast shown and then dismissed by its id leaves the list
      as it was, when no listed toast had that id. */
  method ShowThenDismiss(list: ToastList, message: string, now: nat)
    requires forall i :: 0 <= i < |list.toasts| ==> list.toasts[i].id != ToastId(now)
    modifies list
    ensures list.toasts == old(list.toasts)
  {
    var before := list.toasts;
    var id := list.ShowSuccess(message, None, now);
    list.RemoveToast(id);
    AddThenRemove(before, NewToast(id, message, Some("success"), None));
  }

  /** One `Toast`'s visibility: it follows the `show` prop, and a hidden
      toast renders nothing. */
  class ToastView {
    var isVisible: bool

    /** `show` defaults to true. */
    constructor (show: Option<bool>)
      ensures isVisible == (show.None? || show.value)
    {
      isVisible := show.None? || show.value;
    }

    /** The effect on `[show]`. */
    method ShowChanged(show: bool)
      modifies this
      ensures isVisible == show
    {
      isVisible := show;
    }

    /** `if (!isVisible) return null`. */
    function Renders(): bool
      reads this
    {
      isVisible
    }
  }
}
