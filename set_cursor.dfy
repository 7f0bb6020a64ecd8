/**
 * A cursor over the elements of a set, copied once into an array. The cursor
 * position `index` runs from -1 (before the first element) to the number of
 * elements (after the last one); `get` succeeds only between the two.
 * The order `Set.toArray` gives is not part of this model: the elements
 * arrive as a sequence.
 */
module SetCursor {
  import opened Wrappers

  datatype CursorError =
    /** Any operation on a closed cursor (`checkNotClosed`). */
    | CursorClosedException
    /** `before`/`after` without a comparator. */
    | IllegalStateException
    /** `before`/`after` on a set of one element or more. */
    | UnsupportedOperationException
    /** `get` while the cursor is not on an element. */
    | IOException

  /** Where `next` moves the position, and whether it is then on an element. */
  function NextIndex(index: int, n: nat): (r: (int, bool))
    requires -1 <= index <= n
    ensures -1 <= r.0 <= n
    ensures r.1 <==> 0 <= r.0 < n
    ensures r.1 ==> r.0 == index + 1
    ensures !r.1 ==> r.0 == n
  {
    if n > 0 && index == -1 then (0, true)
    else if n > 0 && index + 1 < n then (index + 1, true)
    else if n > 0 && index + 1 == n then (index + 1, false)
    else if n <= 0 then (n, false)
    else (index, false)
  }

  /** Where `previous` moves the position, and whether it is then on an element. */
  function PreviousIndex(index: int, n: nat): (r: (int, bool))
    requires -1 <= index <= n
    ensures -1 <= r.0 <= n
    ensures r.1 <==> 0 <= r.0 < n
    ensures r.1 ==> r.0 == index - 1
    ensures !r.1 ==> r.0 == -1
  {
    if index == -1 then (index, false)
    else if index - 1 >= 0 then (index - 1, true)
    else if index <= 0 then (-1, false)
    else if n <= 0 then (-1, false)
    else (index, false)
  }

  /** The position after k calls of `next`, and whether every one of them answered true. */
  function NextTimes(index: int, n: nat, k: nat): (r: (int, bool))
    requires -1 <= index <= n
    ensures -1 <= r.0 <= n
    decreases k
  {
    if k == 0 then (index, true)
    else
      var step := NextIndex(index, n);
      var rest := NextTimes(step.0, n, k - 1);
      (rest.0, step.1 && rest.1)
  }

  /** One more call of `next` after k of them. */
  lemma {:induction false} NextTimesSnoc(index: int, n: nat, k: nat)
    requires -1 <= index <= n
    ensures var p := NextTimes(index, n, k);
            NextTimes(index, n, k + 1) == (NextIndex(p.0, n).0, p.1 && NextIndex(p.0, n).1)
    decreases k
  {
    if k > 0 {
      NextTimesSnoc(NextIndex(index, n).0, n, k - 1);
    }
  }

  /** While the end is not reached, every call of `next` answers true and moves one place on. */
  lemma {:induction false} NextTimesInside(index: int, n: nat, k: nat)
    requires -1 <= index && index + k <= n - 1
    ensures NextTimes(index, n, k) == (index + k, true)
    decreases k
  {
    if k > 0 {
      NextTimesInside(index + 1, n, k - 1);
    }
  }

  /**
   * A forward scan from before the first element visits every element in
   * order: the first n calls of `next` answer true and end on the last
   * element, the next one answers false and ends after it, and so does every
   * call after that.
   */
  lemma ForwardScan(n: nat)
    ensures NextTimes(-1, n, n) == (n - 1, true)
    ensures NextTimes(-1, n, n + 1) == (n, false)
    ensures NextIndex(n, n) == (n, false)
  {
    NextTimesInside(-1, n, n);
    NextTimesSnoc(-1, n, n);
  }

  /** `previous` undoes a `next` that answered true, except from before the first element. */
  lemma PreviousUndoesNext(index: int, n: nat)
    requires 0 <= index <= n && NextIndex(index, n).1
    ensures PreviousIndex(NextIndex(index, n).0, n) == (index, true)
  {
  }

  /** The cursor: the elements, an optional comparator, the position and the closed flag. */
  class SetCursor<E> {
    /** The set's elements, as `Set.toArray` gives them (the Java field `set`). */
    const elements: array<E>
    const comparator: Option<(E, E) -> int>
    var index: int
    /** The closed state kept by `AbstractCursor`. */
    var closed: bool

    predicate Valid()
      reads this
    {
      -1 <= index <= elements.Length
    }

    /** `new SetCursor(comparator, elements)`: a null set is an empty one; the cursor starts before the first element. */
    constructor (comparator: Option<(E, E) -> int>, source: Option<seq<E>>)
      ensures Valid() && fresh(elements)
      ensures elements[..] == (if source.None? then [] else source.value)
      ensures this.comparator == comparator && index == -1 && !closed
    {
      var s := if source.None? then [] else source.value;
      this.comparator := comparator;
      elements := new E[|s|](i requires 0 <= i < |s| => s[i]);
      index := -1;
      closed := false;
    }

    /** `available()`: the cursor is on an element. */
    predicate Available()
      reads this
    {
      0 <= index < elements.Length
    }

    /** `get()`: the element under the cursor; `IOException` when there is none. */
    method Get() returns (r: Result<E, CursorError>)
      ensures closed ==> r == Err(CursorClosedException)
      ensures !closed ==> (r.Ok? <==> Available())
      ensures !closed && !Available() ==> r == Err(IOException)
      ensures r.Ok? ==> 0 <= index < elements.Length && r.value == elements[index]
    {
      if closed {
        return Err(CursorClosedException);
      }
      if index < 0 || index >= elements.Length {
        return Err(IOException);
      }
      r := Ok(elements[index]);
    }

    method Next() returns (r: Result<bool, CursorError>)
      requires Valid()
      modifies this`index
      ensures Valid()
      ensures closed ==> r == Err(CursorClosedException) && index == old(index)
      ensures !closed ==> r == Ok(NextIndex(old(index), elements.Length).1) && index == NextIndex(old(index), elements.Length).0
    {
      if closed {
        return Err(CursorClosedException);
      }
      if elements.Length > 0 && index == -1 {
        index := 0;
        return Ok(true);
      }
      if elements.Length > 0 && index + 1 < elements.Length {
        index := index + 1;
        return Ok(true);
      }
      if elements.Length > 0 && index + 1 == elements.Length {
        index := index + 1;
        return Ok(false);
      }
      if elements.Length <= 0 {
        index := elements.Length;
      }
      r := Ok(false);
    }

    method Previous() returns (r: Result<bool, CursorError>)
      requires Valid()
      modifies this`index
      ensures Valid()
      ensures closed ==> r == Err(CursorClosedException) && index == old(index)
      ensures !closed ==> r == Ok(PreviousIndex(old(index), elements.Length).1) && index == PreviousIndex(old(index), elements.Length).0
    {
      if closed {
        return Err(CursorClosedException);
      }
      if index == -1 {
        return Ok(false);
      }
      if index - 1 >= 0 {
        index := index - 1;
        return Ok(true);
      }
      if index <= 0 {
        index := -1;
        return Ok(false);
      }
      // the source's last test, on the array's length, is never reached:
      // an index above 0 took the step back above
      assert false;
    }

    /** `first()`: onto the first element when there is one. */
    method First() returns (r: Result<bool, CursorError>)
      requires Valid()
      modifies this`index
      ensures Valid()
      ensures closed ==> r == Err(CursorClosedException) && index == old(index)
      ensures !closed ==> r == Ok(elements.Length > 0)
      ensures !closed && elements.Length > 0 ==> index == 0 && Available()
      ensures elements.Length == 0 ==> index == old(index)
    {
      if closed {
        return Err(CursorClosedException);
      }
      if elements.Length > 0 {
        index := 0;
        return Ok(true);
      }
      r := Ok(false);
    }

    /** `last()`: onto the last element when there is one. */
    method Last() returns (r: Result<bool, CursorError>)
      requires Valid()
      modifies this`index
      ensures Valid()
      ensures closed ==> r == Err(CursorClosedException) && index == old(index)
      ensures !closed ==> r == Ok(elements.Length > 0)
      ensures !closed && elements.Length > 0 ==> index == elements.Length - 1 && Available()
      ensures elements.Length == 0 ==> index == old(index)
    {
      if closed {
        return Err(CursorClosedException);
      }
      if elements.Length > 0 {
        index := elements.Length - 1;
        return Ok(true);
      }
      r := Ok(false);
    }

    method BeforeFirst() returns (r: Outcome<CursorError>)
      modifies this`index
      ensures Valid() || closed
      ensures closed ==> r == Fail(CursorClosedException) && index == old(index)
      ensures !closed ==> r == Pass && index == -1 && !Available()
    {
      if closed {
        return Fail(CursorClosedException);
      }
      index := -1;
      r := Pass;
    }

    method AfterLast() returns (r: Outcome<CursorError>)
      modifies this`index
      ensures Valid() || closed
      ensures closed ==> r == Fail(CursorClosedException) && index == old(index)
      ensures !closed ==> r == Pass && index == elements.Length && !Available()
    {
      if closed {
        return Fail(CursorClosedException);
      }
      index := elements.Length;
      r := Pass;
    }

    method IsFirst() returns (r: Result<bool, CursorError>)
      ensures closed ==> r == Err(CursorClosedException)
      ensures !closed ==> r.Ok? && (r.value <==> Available() && index == 0)
    {
      if closed {
        return Err(CursorClosedException);
      }
      r := Ok(elements.Length > 0 && index == 0);
    }

    method IsLast() returns (r: Result<bool, CursorError>)
      ensures closed ==> r == Err(CursorClosedException)
      ensures !closed ==> r.Ok? && (r.value <==> Available() && index == elements.Length - 1)
    {
      if closed {
        return Err(CursorClosedException);
      }
      r := Ok(elements.Length > 0 && index == elements.Length - 1);
    }

    method IsAfterLast() returns (r: Result<bool, CursorError>)
      ensures closed ==> r == Err(CursorClosedException)
      ensures !closed ==> r == Ok(index == elements.Length)
    {
      if closed {
        return Err(CursorClosedException);
      }
      r := Ok(index == elements.Length);
    }

    method IsBeforeFirst() returns (r: Result<bool, CursorError>)
      ensures closed ==> r == Err(CursorClosedException)
      ensures !closed ==> r == Ok(index == -1)
    {
      if closed {
        return Err(CursorClosedException);
      }
      r := Ok(index == -1);
    }

    /**
     * `before(element)`: without a comparator an `IllegalStateException`; on an
     * empty elements nothing happens; otherwise an `UnsupportedOperationException`,
     * after a one-element elements has been repositioned before its element (when
     * `element` sorts at or before it) or after it.
     */
    method Before(element: E) returns (r: Outcome<CursorError>)
      requires Valid()
      modifies this`index
      ensures Valid()
      ensures closed ==> r == Fail(CursorClosedException) && index == old(index)
      ensures !closed && comparator.None? ==> r == Fail(IllegalStateException) && index == old(index)
      ensures !closed && comparator.Some? && elements.Length == 0 ==> r == Pass && index == old(index)
      ensures !closed && comparator.Some? && elements.Length > 0 ==> r == Fail(UnsupportedOperationException)
      ensures !closed && comparator.Some? && elements.Length == 1 ==>
                index == (if comparator.value(element, elements[0]) <= 0 then -1 else 1)
      ensures elements.Length > 1 ==> index == old(index)
    {
      if closed {
        return Fail(CursorClosedException);
      }
      if comparator.None? {
        return Fail(IllegalStateException);
      }
      if elements.Length == 0 {
        return Pass;
      } else if elements.Length == 1 {
        var ignored: Outcome<CursorError>;
        if comparator.value(element, elements[0]) <= 0 {
          ignored := BeforeFirst();
        } else {
          ignored := AfterLast();
        }
      }
      r := Fail(UnsupportedOperationException);
    }

    /**
     * `after(element)`: as `before`, but a one-element elements is left after its
     * element when `element` sorts at or after it, and before it otherwise.
     */
    method After(element: E) returns (r: Outcome<CursorError>)
      requires Valid()
      modifies this`index
      ensures Valid()
      ensures closed ==> r == Fail(CursorClosedException) && index == old(index)
      ensures !closed && comparator.None? ==> r == Fail(IllegalStateException) && index == old(index)
      ensures !closed && comparator.Some? && elements.Length == 0 ==> r == Pass && index == old(index)
      ensures !closed && comparator.Some? && elements.Length > 0 ==> r == Fail(UnsupportedOperationException)
      ensures !closed && comparator.Some? && elements.Length == 1 ==>
                index == (if comparator.value(element, elements[0]) >= 0 then 1 else -1)
      ensures elements.Length > 1 ==> index == old(index)
    {
      if closed {
        return Fail(CursorClosedException);
      }
      if comparator.None? {
        return Fail(IllegalStateException);
      }
      if elements.Length == 0 {
        return Pass;
      } else if elements.Length == 1 {
        var ignored: Outcome<CursorError>;
        if comparator.value(element, elements[0]) >= 0 {
          ignored := AfterLast();
        } else {
          ignored := BeforeFirst();
        }
      }
      r := Fail(UnsupportedOperationException);
    }

    /** `close()`: every later operation fails. */
    method Close()
      modifies this`closed
      ensures closed
    {
      closed := true;
    }
  }
}
