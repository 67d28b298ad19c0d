/** The page as the content script sees it. A page is the sequence of its
    elements in document order (what `querySelectorAll('*')` walks); the `<img>`
    elements, in the same order, are what `getElementsByTagName('img')` returns.
    Each element splits into the part the script reads (`Node`) and the part the
    highlight path writes (`Decor`). */
module Dom {

  /** Handlers the highlight path attaches to an element. */
  datatype Listener = MouseOver | MouseOut | Click

  /** A warning overlay appended as a child; `hidden` is its display state when appended. */
  datatype Overlay = Overlay(hidden: bool)

  /** `getBoundingClientRect()`, in whole pixels. */
  datatype Rect = Rect(x: int, y: int, width: int, height: int)

  /** What the content script reads from an element. `src` is the resolved `img.src`
      ("" when absent), `role` the reflected ARIA role ("" when absent),
      `backgroundImage` the computed `background-image` value, and `parent` the index
      of `parentElement` in the page (-1 for none). */
  datatype Node = Node(
    isImg: bool,
    src: string,
    role: string,
    className: string,
    rect: Rect,
    offsetWidth: int,
    offsetHeight: int,
    alt: string,
    id: string,
    backgroundImage: string,
    parent: int)

  /** What the highlight path changes: inline border, `position: relative`, the
      overlays appended as children, and the attached listeners in order. */
  datatype Decor = Decor(border: string, relative: bool, overlays: seq<Overlay>, listeners: seq<Listener>)

  datatype Element = Element(node: Node, decor: Decor)

  type Page = seq<Element>

  /** Every `<img>` has a parent inside the page (in an HTML document only the root
      element has no parent, and the root is never an `<img>`). */
  predicate WellFormed(page: Page) {
    forall i :: 0 <= i < |page| && page[i].node.isImg ==> 0 <= page[i].node.parent < |page|
  }

  /** An image record of the `getImages` reply. Native records carry no
      `isBackground` flag, which reads as false. */
  datatype Candidate = Candidate(
    src: string,
    width: int,
    height: int,
    x: int,
    y: int,
    alt: string,
    className: string,
    id: string,
    isBackground: bool)

  function Area(c: Candidate): int {
    c.width * c.height
  }
}
