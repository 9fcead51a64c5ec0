/** The intrusive element: an application record together with its hash handle.
    An element lives in two doubly linked lists at once, the application-order
    list (`prev`/`next`) and its bucket's chain (`hhPrev`/`hhNext`).  The
    predicates below say that the pointers of a sequence of elements form such
    a list. */
module Elements {
  import opened Bits

  class Element {
    const key: seq<byte>     // the bytes of the key, keylen of them
    const hashv: nat        // the hash of the key, fixed when the element is made
    var prev: Element?      // application order
    var next: Element?
    var hhPrev: Element?    // bucket order
    var hhNext: Element?
    var sec: int            // the application's record: a timespec
    var nsec: int

    constructor (key: seq<byte>, hashv: nat, sec: int, nsec: int)
      ensures this.key == key && this.hashv == hashv
      ensures this.sec == sec && this.nsec == nsec
    {
      this.key, this.hashv := key, hashv;
      this.sec, this.nsec := sec, nsec;
      prev, next, hhPrev, hhNext := null, null, null, null;
    }
  }

  /** The element at index `i`, or null outside the sequence. */
  function At(s: seq<Element>, i: int): Element? {
    if 0 <= i < |s| then s[i] else null
  }

  ghost predicate Distinct<T>(s: seq<T>) {
    forall i, j :: 0 <= i < j < |s| ==> s[i] != s[j]
  }

  /** `next` leads through `s` and ends in null. */
  ghost predicate Forward(s: seq<Element>)
    reads s`next
  {
    forall i {:trigger s[i].next} :: 0 <= i < |s| ==> s[i].next == At(s, i + 1)
  }

  /** `prev` leads back through `s` and ends in null. */
  ghost predicate Backward(s: seq<Element>)
    reads s`prev
  {
    forall i {:trigger s[i].prev} :: 0 <= i < |s| ==> s[i].prev == At(s, i - 1)
  }

  /** `next` leads through `s`, wherever the last element points. */
  ghost predicate Run(s: seq<Element>)
    reads s`next
  {
    forall i {:trigger s[i].next} :: 0 <= i < |s| - 1 ==> s[i].next == s[i + 1]
  }

  /** The application-order list is exactly `s`. */
  ghost predicate AppLinked(s: seq<Element>)
    reads s`next, s`prev
  {
    Distinct(s) && Forward(s) && Backward(s)
  }

  /** `hhNext` leads through `s` and ends in null. */
  ghost predicate ChainForward(s: seq<Element>)
    reads s`hhNext
  {
    forall i {:trigger s[i].hhNext} :: 0 <= i < |s| ==> s[i].hhNext == At(s, i + 1)
  }

  /** A bucket chain is exactly `s`. */
  ghost predicate ChainLinked(s: seq<Element>)
    reads s`hhNext, s`hhPrev
  {
    && Distinct(s)
    && ChainForward(s)
    && (forall i {:trigger s[i].hhPrev} :: 0 <= i < |s| ==> s[i].hhPrev == At(s, i - 1))
  }
}
