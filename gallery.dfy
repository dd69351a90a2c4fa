/** `GallerySection` and its `ProjectModal`: the selected filter, the selected
    item (the lightbox is shown exactly when there is one), the lock on page
    scrolling while the lightbox is shown, and how a click inside the lightbox
    reaches the close handler. */
module Gallery {
  import opened Catalog
  import opened CategoryFilter

  datatype Option<T> = None | Some(value: T)

  /** The inline `overflow` style of the page body: never set yet, `hidden`
      while the lightbox is mounted, and `unset` once it has been unmounted. */
  datatype BodyOverflow = Unstyled | Hidden | Unset

  /** Where a click inside the lightbox lands: the dimmed backdrop, the close
      button, or anywhere else within the content panel. */
  datatype ModalTarget = Backdrop | ContentPanel | CloseButton

  /** The elements a click on `t` bubbles through, innermost first. The close
      button sits inside the content panel, which sits inside the backdrop. */
  function BubblePath(t: ModalTarget): (path: seq<ModalTarget>)
    ensures |path| > 0 && path[0] == t && path[|path| - 1] == Backdrop
  {
    match t
    case CloseButton => [CloseButton, ContentPanel, Backdrop]
    case ContentPanel => [ContentPanel, Backdrop]
    case Backdrop => [Backdrop]
  }

  /** The `onClick` handler of each element: the backdrop and the close button
      call `onClose`; the content panel only stops propagation. */
  datatype Handler = CallOnClose | StopPropagation

  function HandlerOf(t: ModalTarget): (h: Handler)
    ensures h == StopPropagation <==> t == ContentPanel
  {
    if t == ContentPanel then StopPropagation else CallOnClose
  }

  /** How many times `onClose` runs while a click bubbles along `path`; bubbling
      ends at the first handler that stops propagation. */
  function OnCloseCalls(path: seq<ModalTarget>): (n: nat)
    // Only handlers below the first stopper run.
    ensures forall i :: 0 <= i < |path| && HandlerOf(path[i]) == StopPropagation ==> n <= i
    // Without a stopper, every element on the path calls `onClose`.
    ensures (forall i :: 0 <= i < |path| ==> HandlerOf(path[i]) == CallOnClose) ==> n == |path|
  {
    if path == [] then 0
    else match HandlerOf(path[0])
      case StopPropagation => 0
      case CallOnClose => 1 + OnCloseCalls(path[1..])
  }

  /** Bubbling stops at a handler that stops propagation: the elements above
      it (beyond position `i`) have no effect on how often `onClose` runs. */
  lemma {:induction false} OnCloseCallsStopsAt(path: seq<ModalTarget>, i: nat)
    requires i < |path| && HandlerOf(path[i]) == StopPropagation
    ensures OnCloseCalls(path) == OnCloseCalls(path[..i])
  {
    if i == 0 {
      assert path[..i] == [];
    } else {
      assert path[..i][0] == path[0] && path[..i][1..] == path[1..][..i - 1];
      OnCloseCallsStopsAt(path[1..], i - 1);
    }
  }

  /** A click in the lightbox closes it exactly when it does not land on the
      content panel itself, and it never calls `onClose` twice. */
  lemma ClickClosesIff(t: ModalTarget)
    ensures OnCloseCalls(BubblePath(t)) > 0 <==> t != ContentPanel
    ensures OnCloseCalls(BubblePath(t)) <= 1
  {
  }

  /** The state `GallerySection` owns, plus the body style its modal sets. */
  class GallerySection {
    const items: seq<Item>
    var filter: string
    var selectedItem: Option<Item>
    var bodyOverflow: BodyOverflow

    /** The selection is always one of the items, and scrolling is locked
        exactly while the lightbox is shown. */
    ghost predicate Valid()
      reads this
    {
      && (selectedItem.Some? ==> selectedItem.value in items)
      && (ModalOpen() <==> bodyOverflow == Hidden)
    }

    /** The lightbox is rendered exactly when an item is selected. */
    predicate ModalOpen()
      reads this
    {
      selectedItem.Some?
    }

    /** The cards of the grid, in display order. */
    function Cards(): (r: seq<Item>)
      reads this
      ensures filter == AllLabel ==> r == items
      ensures filter != AllLabel ==> forall x :: x in r ==> x.category == filter
      ensures forall x :: x in r ==> x in items
    {
      FilterBy(items, filter)
    }

    constructor (items: seq<Item>)
      ensures Valid()
      ensures this.items == items && filter == AllLabel && selectedItem == None
      ensures bodyOverflow == Unstyled
      ensures Cards() == items
    {
      this.items := items;
      filter := AllLabel;
      selectedItem := None;
      bodyOverflow := Unstyled;
    }

    /** A filter button was clicked: only the filter changes. */
    method ChooseCategory(cat: string)
      requires Valid()
      modifies this
      ensures Valid()
      ensures filter == cat
      ensures selectedItem == old(selectedItem) && bodyOverflow == old(bodyOverflow)
      ensures Cards() == FilterBy(items, cat)
    {
      filter := cat;
    }

    /** The k-th card of the grid was clicked: that item is selected and the
        lightbox, mounted if it was not, locks page scrolling. */
    method ClickCard(k: nat)
      requires Valid()
      requires k < |Cards()|
      modifies this
      ensures Valid() && ModalOpen()
      ensures selectedItem == Some(old(Cards())[k])
      ensures filter == old(filter)
      ensures bodyOverflow == Hidden
    {
      selectedItem := Some(Cards()[k]);
      bodyOverflow := Hidden;
    }

    /** `onClose`: the selection is cleared, the lightbox unmounts and its
        cleanup releases the scroll lock. */
    method Close()
      requires Valid() && ModalOpen()
      modifies this
      ensures Valid() && !ModalOpen()
      ensures selectedItem == None && bodyOverflow == Unset
      ensures filter == old(filter)
    {
      selectedItem := None;
      bodyOverflow := Unset;
    }

    /** A click inside the open lightbox, on target `t`. */
    method ClickInModal(t: ModalTarget)
      requires Valid() && ModalOpen()
      modifies this
      ensures Valid()
      ensures t == ContentPanel ==> unchanged(this)
      ensures t != ContentPanel ==> selectedItem == None && bodyOverflow == Unset
      ensures filter == old(filter)
    {
      ClickClosesIff(t);
      if OnCloseCalls(BubblePath(t)) > 0 {
        Close();
      }
    }
  }
}
