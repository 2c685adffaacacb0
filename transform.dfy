/**
 * IdentityTransformer: one record out for every record in. The wrapper it puts
 * around an iterator holds no state of its own, so iterators are values here:
 * the records an iterator still has, whether it is a CloseableIterator, and
 * what its own close() does.
 */
module Transform {
  import opened Base
  import opened Values

  /**
   * An underlying Iterator<DivirganceRecord>. When it is a CloseableIterator,
   * `onClose` is its close(): given the records it still has, the records it
   * has after closing, or the exception close() throws.
   */
  datatype Cursor = Cursor(pending: seq<Rec>, closeable: bool, onClose: seq<Rec> -> Result<seq<Rec>>)

  /** transform(record): the new record, or the SQLException it throws. */
  type Transformer = Rec -> Result<Rec>

  /** Iterator.next() of the underlying iterator; past the end it throws. */
  function Pop(c: Cursor): (r: (Result<Rec>, Cursor))
    ensures r.0.Ok? <==> c.pending != []
    ensures c.pending != [] ==> r.0 == Ok(c.pending[0]) && r.1 == c.(pending := c.pending[1..])
    ensures c.pending == [] ==> r == (Err(Exhausted), c)
  {
    if c.pending == [] then (Err(Exhausted), c) else (Ok(c.pending[0]), c.(pending := c.pending[1..]))
  }

  /**
   * What the wrapper's next() yields for one underlying record: the
   * transformed record, or the SQLException rethrown as IllegalArgumentException.
   */
  function Lift(f: Transformer, x: Rec): (r: Result<Rec>)
    ensures f(x).Ok? ==> r == f(x)
    ensures f(x).Err? ==> r == Err(Transform(f(x).error))
  {
    match f(x)
    case Ok(y) => Ok(y)
    case Err(e) => Err(Transform(e))
  }

  /** The iterator transform(Iterator) returns: it only forwards to the one it wraps. */
  datatype Wrapped = Wrapped(inner: Cursor)

  /** hasNext(): the underlying hasNext(). */
  function HasNext(w: Wrapped): (b: bool)
    ensures b <==> w.inner.pending != []
  {
    w.inner.pending != []
  }

  /**
   * next(): pulls exactly one underlying record and transforms it; the
   * underlying NoSuchElementException passes through unwrapped.
   */
  function Next(f: Transformer, w: Wrapped): (r: (Result<Rec>, Wrapped))
    ensures HasNext(w) ==> r == (Lift(f, w.inner.pending[0]), Wrapped(w.inner.(pending := w.inner.pending[1..])))
    ensures !HasNext(w) ==> r == (Err(Exhausted), w)
  {
    var (x, c) := Pop(w.inner);
    if x.Err? then (Err(x.error), Wrapped(c)) else (Lift(f, x.value), Wrapped(c))
  }

  /**
   * close(): forwarded only to a CloseableIterator, whose exception passes
   * through unwrapped; any other iterator is left as it is.
   */
  function Close(w: Wrapped): (r: Result<Wrapped>)
    ensures !w.inner.closeable ==> r == Ok(w)
    ensures w.inner.closeable ==> (r.Ok? <==> w.inner.onClose(w.inner.pending).Ok?)
    ensures r.Ok? ==> r.value.inner.closeable == w.inner.closeable && r.value.inner.onClose == w.inner.onClose
  {
    if !w.inner.closeable then Ok(w)
    else
      match w.inner.onClose(w.inner.pending)
      case Err(e) => Err(e)
      case Ok(left) => Ok(Wrapped(w.inner.(pending := left)))
  }

  /** Everything a caller gets by calling next() while hasNext() is true. */
  function Drain(f: Transformer, w: Wrapped): (out: seq<Result<Rec>>)
    decreases |w.inner.pending|
  {
    if !HasNext(w) then []
    else
      var (x, w') := Next(f, w);
      [x] + Drain(f, w')
  }

  /** The records in, transformed one by one. */
  function MapAll(f: Transformer, xs: seq<Rec>): (out: seq<Result<Rec>>)
  {
    seq(|xs|, i requires 0 <= i < |xs| => Lift(f, xs[i]))
  }

  /**
   * The wrapper yields exactly one output per underlying record, in order:
   * draining it is the element-wise map of what the wrapped iterator held.
   */
  lemma {:induction false} DrainIsMap(f: Transformer, c: Cursor)
    ensures Drain(f, Wrapped(c)) == MapAll(f, c.pending)
    ensures |Drain(f, Wrapped(c))| == |c.pending|
    decreases |c.pending|
  {
    if c.pending != [] {
      var c' := c.(pending := c.pending[1..]);
      DrainIsMap(f, c');
      assert Drain(f, Wrapped(c)) == [Lift(f, c.pending[0])] + MapAll(f, c'.pending);
    }
  }

  /**
   * A transform that fails at the i-th record makes exactly the i-th next()
   * fail, with the cause kept; the others are unaffected.
   */
  lemma FailureSurfacesAt(f: Transformer, c: Cursor, i: nat)
    requires i < |c.pending| && f(c.pending[i]).Err?
    ensures i < |Drain(f, Wrapped(c))| && Drain(f, Wrapped(c))[i] == Err(Transform(f(c.pending[i]).error))
  {
    DrainIsMap(f, c);
  }

  /**
   * The wrapper's close() is the underlying close(): what the wrapper yields
   * afterwards is what the underlying iterator has left, transformed, and an
   * iterator that is not closeable is untouched.
   */
  lemma CloseIsUnderlyingClose(f: Transformer, w: Wrapped)
    ensures !w.inner.closeable ==> Close(w) == Ok(w) && Drain(f, w) == MapAll(f, w.inner.pending)
    ensures w.inner.closeable && w.inner.onClose(w.inner.pending).Ok? ==>
      Close(w).Ok? && Drain(f, Close(w).value) == MapAll(f, w.inner.onClose(w.inner.pending).value)
    ensures w.inner.closeable && w.inner.onClose(w.inner.pending).Err? ==>
      Close(w) == Err(w.inner.onClose(w.inner.pending).error)
  {
    DrainIsMap(f, w.inner);
    if Close(w).Ok? {
      DrainIsMap(f, Close(w).value.inner);
    }
  }

  /**
   * Over an iterator whose close() drains it, as the iterator of BinaryInput
   * does, a successful close() leaves the wrapper with nothing: hasNext() is
   * false and no output is left.
   */
  lemma CloseOfDrainingIterator(f: Transformer, w: Wrapped)
    requires w.inner.closeable && forall rs :: w.inner.onClose(rs).Ok? ==> w.inner.onClose(rs).value == []
    ensures Close(w).Ok? ==> !HasNext(Close(w).value) && Drain(f, Close(w).value) == []
    ensures Close(w).Err? ==> Close(w).error == w.inner.onClose(w.inner.pending).error
  {
  }

  /**
   * An Iterable<DivirganceRecord>: the iterator its k-th iterator() call
   * returns.
   */
  datatype Source = Source(open: nat -> Cursor)

  /** transform(Iterable): each iterator() call wraps a new underlying iterator. */
  function TransformIterable(src: Source): (open: nat -> Wrapped)
    ensures forall k :: open(k) == Wrapped(src.open(k))
  {
    (k: nat) => Wrapped(src.open(k))
  }

  /** The k-th iteration over the transformed iterable is the k-th iteration over the source, transformed. */
  lemma EachIterationMaps(f: Transformer, src: Source, k: nat)
    ensures Drain(f, TransformIterable(src)(k)) == MapAll(f, src.open(k).pending)
  {
    DrainIsMap(f, src.open(k));
  }
}
