/**
 * The page editor's drop grammar and drag state: which component types a
 * container accepts as children, the editor's "currently dragging" state that
 * the toolbar buttons start and endDrag stops, and the drop-target click that
 * moves the dragged component into a container. The DOM work (elements,
 * highlighting) is not part of this model; of the drag shadow only whether it
 * is set is kept, because using it unset throws.
 */

module PageEditor {

  datatype ComponentType =
    | PARALLAX | GRID | ROW | COL | TABLE | ACCORDION         // structural
    | HEADER | PARAGRAPH | LIST                               // text
    | PANEL_CARD | BASIC_CARD | IMAGE_CARD | REVEAL_CARD      // cards
    | IMAGE | GALLERY | VIDEO | AUDIO                         // media
    | STREAM | POST | REF | PERSON                            // embed

  /** The component kinds that are containers of other components. */
  predicate IsContainer(t: ComponentType)
  {
    t == PARALLAX || t == GRID || t == ROW || t == COL
  }

  predicate IsTextComponent(t: ComponentType)
  {
    t == HEADER || t == PARAGRAPH || t == LIST
  }

  /** No kind is both a container and a text component. */
  lemma ContainersAreNotText(t: ComponentType)
    ensures !(IsContainer(t) && IsTextComponent(t))
  {
  }

  /** The child types a container of kind `container` accepts. */
  predicate AcceptsChildType(container: ComponentType, t: ComponentType)
    requires IsContainer(container)
  {
    match container
    case PARALLAX => t == ROW
    case GRID => t == ROW
    case ROW => t == COL
    case COL => !(t == ROW || t == COL || t == PARALLAX)
  }

  /** The one container kind a container of kind `c` accepts: sections take
      rows, rows take columns, and columns take grids, which start over. */
  function NestedContainer(c: ComponentType): (t: ComponentType)
    requires IsContainer(c)
    ensures IsContainer(t) && t != PARALLAX && t != c
  {
    match c
    case PARALLAX => ROW
    case GRID => ROW
    case ROW => COL
    case COL => GRID
  }

  /** Among containers, a container accepts exactly its nested container kind. */
  lemma AcceptedContainerIsNested(c: ComponentType, t: ComponentType)
    requires IsContainer(c) && IsContainer(t)
    ensures AcceptsChildType(c, t) <==> t == NestedContainer(c)
  {
  }

  /** No container accepts itself or a parallax: parallax sections only sit at the top. */
  lemma NoSelfOrParallaxChild(c: ComponentType)
    requires IsContainer(c)
    ensures !AcceptsChildType(c, PARALLAX) && !AcceptsChildType(c, c)
  {
  }

  /** A non-container component is accepted by a column and by no other container. */
  lemma LeavesOnlyInColumns(c: ComponentType, t: ComponentType)
    requires IsContainer(c) && !IsContainer(t)
    ensures AcceptsChildType(c, t) <==> c == COL
  {
  }

  /** Text components are leaves, so they live in columns only. */
  lemma TextOnlyInColumns(c: ComponentType, t: ComponentType)
    requires IsContainer(c) && IsTextComponent(t)
    ensures !IsContainer(t)
    ensures AcceptsChildType(c, t) <==> c == COL
  {
    LeavesOnlyInColumns(c, t);
  }

  /** A page component. Only containers have children; the list may hold null,
      because the source can append one (see DropTargetClick). */
  class Component {
    const kind: ComponentType
    var children: seq<Component?>

    constructor(kind: ComponentType)
      ensures this.kind == kind && children == []
    {
      this.kind := kind;
      children := [];
    }

    /** Every non-null child is of a type this container accepts. */
    predicate WellNested()
      reads this
    {
      IsContainer(kind) &&
      forall i :: 0 <= i < |children| && children[i] != null ==> AcceptsChildType(kind, children[i].kind)
    }

    /** Appends `child` to the children; the caller then reads the child's
        element, which fails exactly when `child` is null. */
    method AddChild(child: Component?) returns (ok: bool)
      requires IsContainer(kind)
      modifies this
      ensures children == old(children) + [child]
      ensures ok <==> child != null
    {
      children := children + [child];
      ok := child != null;
    }
  }

  /** What a drop-target click did. */
  datatype ClickOutcome = Ignored | Dropped | TypeError

  /**
   * The editor singleton. `hasDragShadow` says whether the drag-shadow element is set: the
   * field is declared but nothing assigns it, so it stays unset and every handler that touches
   * the shadow throws TypeError after its field writes.
   */
  class Editor {
    var isDragging: bool
    var draggingComponent: Component?
    var hasDragShadow: bool

    constructor()
      ensures !isDragging && draggingComponent == null && !hasDragShadow
    {
      isDragging := false;
      draggingComponent := null;
      hasDragShadow := false;
    }

    /** The parallax, container, row and column buttons: start dragging a new component of
        that kind, then show the drag shadow, which fails (`ok` false) when it is unset. */
    method StartDrag(t: ComponentType) returns (c: Component, ok: bool)
      requires IsContainer(t)
      modifies this
      ensures fresh(c) && c.kind == t && c.children == []
      ensures isDragging && draggingComponent == c && hasDragShadow == old(hasDragShadow)
      ensures ok <==> hasDragShadow
    {
      c := new Component(t);
      isDragging := true;
      draggingComponent := c;
      ok := hasDragShadow;
    }

    /** The card-panel button: dragging starts, but no component is created; showing the
        shadow fails as in StartDrag. */
    method StartCardPanelDrag() returns (ok: bool)
      modifies this
      ensures isDragging
      ensures draggingComponent == old(draggingComponent) && hasDragShadow == old(hasDragShadow)
      ensures ok <==> hasDragShadow
    {
      isDragging := true;
      ok := hasDragShadow;
    }

    /** Stops the drag, then hides the shadow, which fails (`ok` false) when it is unset. */
    method EndDrag() returns (ok: bool)
      modifies this
      ensures !isDragging && draggingComponent == null && hasDragShadow == old(hasDragShadow)
      ensures ok <==> hasDragShadow
    {
      isDragging := false;
      draggingComponent := null;
      ok := hasDragShadow;
    }
  }

  /**
   * A click on a drop target of `cont`, as written. A drag with no component fails on
   * getType. An accepted click calls endDrag, which clears the dragged component before it is
   * read; with the shadow unset endDrag throws and nothing is added, and were the shadow set,
   * null would be appended and reading its element would fail. Either way nothing is dropped.
   */
  method DropTargetClick(edit: Editor, cont: Component) returns (r: ClickOutcome)
    requires IsContainer(cont.kind)
    modifies edit, cont
    ensures r != Dropped
    ensures edit.hasDragShadow == old(edit.hasDragShadow)
    ensures !old(edit.isDragging) ==> r == Ignored
    ensures old(edit.isDragging) && old(edit.draggingComponent) == null ==> r == TypeError
    ensures old(edit.isDragging) && old(edit.draggingComponent) != null ==>
      (r == TypeError <==> AcceptsChildType(cont.kind, old(edit.draggingComponent).kind))
    ensures r == Ignored || (r == TypeError && old(edit.draggingComponent) == null) ==>
      edit.isDragging == old(edit.isDragging) && edit.draggingComponent == old(edit.draggingComponent) &&
      cont.children == old(cont.children)
    ensures r == TypeError && old(edit.draggingComponent) != null ==>
      !edit.isDragging && edit.draggingComponent == null &&
      cont.children == old(cont.children) + (if old(edit.hasDragShadow) then [null] else [])
  {
    if !edit.isDragging {
      return Ignored;
    }
    if edit.draggingComponent == null {
      return TypeError;
    }
    if !AcceptsChildType(cont.kind, edit.draggingComponent.kind) {
      return Ignored;
    }
    var shown := edit.EndDrag();
    if !shown {
      return TypeError;
    }
    var ok := cont.AddChild(edit.draggingComponent);
    r := if ok then Dropped else TypeError;
  }

  /**
   * The click as evidently intended: the dragged component is taken before the drag ends, so
   * it is the one appended. It still needs the drag shadow set, which the editor does not do:
   * with the shadow unset the click fails in endDrag and adds nothing.
   */
  method DropTargetClickIntended(edit: Editor, cont: Component) returns (r: ClickOutcome)
    requires IsContainer(cont.kind)
    modifies edit, cont
    ensures edit.hasDragShadow == old(edit.hasDragShadow)
    ensures !old(edit.isDragging) ==> r == Ignored
    ensures old(edit.isDragging) && old(edit.draggingComponent) == null ==> r == TypeError
    ensures old(edit.isDragging) && old(edit.draggingComponent) != null ==>
      (r == Dropped <==> AcceptsChildType(cont.kind, old(edit.draggingComponent).kind) && edit.hasDragShadow)
    ensures old(edit.isDragging) && old(edit.draggingComponent) != null ==>
      (r == Ignored <==> !AcceptsChildType(cont.kind, old(edit.draggingComponent).kind))
    ensures r == TypeError && old(edit.draggingComponent) != null ==>
      !edit.isDragging && edit.draggingComponent == null
    ensures r == Dropped ==>
      !edit.isDragging && edit.draggingComponent == null &&
      cont.children == old(cont.children) + [old(edit.draggingComponent)]
    ensures r != Dropped ==> cont.children == old(cont.children)
    ensures r == Ignored || (r == TypeError && old(edit.draggingComponent) == null) ==>
      edit.isDragging == old(edit.isDragging) && edit.draggingComponent == old(edit.draggingComponent)
    ensures old(cont.WellNested()) ==> cont.WellNested()
  {
    if !edit.isDragging {
      return Ignored;
    }
    var dragged := edit.draggingComponent;
    if dragged == null {
      return TypeError;
    }
    if !AcceptsChildType(cont.kind, dragged.kind) {
      return Ignored;
    }
    var shown := edit.EndDrag();
    if !shown {
      return TypeError;
    }
    var ok := cont.AddChild(dragged);
    r := Dropped;
  }
}
