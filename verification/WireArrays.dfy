/** Arrays of wire entries, for any entry reader and printer.  Both directions
    of "the array reader inverts the array printer" follow from the same two
    facts about one entry. */
module WireArrays {
  import opened Wire

  function ReadMany<T>(d: Bytes, count: nat, read: Bytes -> Result<(T, Bytes)>): Result<(seq<T>, Bytes)>
    decreases count
  {
    if count == 0 then Ok(([], d)) else
    var (x, d1) :- read(d);
    Prepend([x], ReadMany(d1, count - 1, read))
  }

  function PrintMany<T>(xs: seq<T>, print_: T -> Bytes): Bytes {
    if xs == [] then [] else print_(xs[0]) + PrintMany(xs[1..], print_)
  }

  function Prepend<T>(parsed: seq<T>, r: Result<(seq<T>, Bytes)>): Result<(seq<T>, Bytes)> {
    match r
    case Err(e) => Err(e)
    case Ok((xs, rest)) => Ok((parsed + xs, rest))
  }

  ghost predicate AllValid<T>(xs: seq<T>, valid: T -> bool) {
    forall i :: 0 <= i < |xs| ==> valid(xs[i])
  }

  /** The reader gives back whatever valid entry was printed. */
  ghost predicate Inverts<T(!new)>(read: Bytes -> Result<(T, Bytes)>, print_: T -> Bytes, valid: T -> bool) {
    forall x, rest :: valid(x) ==> read(print_(x) + rest) == Ok((x, rest))
  }

  /** Whatever the reader accepts is a printed valid entry and what follows it. */
  ghost predicate Splits<T(!new)>(read: Bytes -> Result<(T, Bytes)>, print_: T -> Bytes, valid: T -> bool) {
    forall d :: read(d).Ok? ==>
      valid(read(d).value.0) && d == print_(read(d).value.0) + read(d).value.1
  }

  lemma {:induction false} ReadManyInverts<T(!new)>(
      xs: seq<T>, rest: Bytes, read: Bytes -> Result<(T, Bytes)>, print_: T -> Bytes, valid: T -> bool)
    requires Inverts(read, print_, valid) && AllValid(xs, valid)
    ensures ReadMany(PrintMany(xs, print_) + rest, |xs|, read) == Ok((xs, rest))
  {
    if xs == [] {
      assert [] + rest == rest;
    } else {
      var tail := PrintMany(xs[1..], print_);
      AppendAssoc(print_(xs[0]), tail, rest);
      assert valid(xs[0]);
      assert read(print_(xs[0]) + (tail + rest)) == Ok((xs[0], tail + rest));
      ReadManyInverts(xs[1..], rest, read, print_, valid);
      assert [xs[0]] + xs[1..] == xs;
    }
  }

  lemma {:induction false} ReadManySplits<T(!new)>(
      d: Bytes, count: nat, xs: seq<T>, rest: Bytes,
      read: Bytes -> Result<(T, Bytes)>, print_: T -> Bytes, valid: T -> bool)
    requires Splits(read, print_, valid)
    requires ReadMany(d, count, read) == Ok((xs, rest))
    ensures |xs| == count && AllValid(xs, valid)
    ensures d == PrintMany(xs, print_) + rest
    decreases count
  {
    if count == 0 {
      assert [] + rest == rest;
    } else {
      var (x, d1) := read(d).value;
      var xs' := ReadMany(d1, count - 1, read).value.0;
      ReadManySplits(d1, count - 1, xs', rest, read, print_, valid);
      assert xs[1..] == xs';
      AppendAssoc(print_(x), PrintMany(xs', print_), rest);
    }
  }

  /** What a reading loop does to the entries still to be read. */
  lemma ReadManyStep<T>(parsed: seq<T>, d: Bytes, count: nat, read: Bytes -> Result<(T, Bytes)>)
    requires count > 0
    ensures read(d).Err? ==> Prepend(parsed, ReadMany(d, count, read)) == Err(read(d).error)
    ensures read(d).Ok? ==>
      Prepend(parsed, ReadMany(d, count, read))
      == Prepend(parsed + [read(d).value.0], ReadMany(read(d).value.1, count - 1, read))
  {
    if read(d).Ok? {
      var (x, d1) := read(d).value;
      var r := ReadMany(d1, count - 1, read);
      if r.Ok? {
        assert parsed + ([x] + r.value.0) == (parsed + [x]) + r.value.0;
      }
    }
  }

  lemma ReadManyStart<T>(d: Bytes, count: nat, read: Bytes -> Result<(T, Bytes)>)
    ensures Prepend([], ReadMany(d, count, read)) == ReadMany(d, count, read)
  {
    var r := ReadMany(d, count, read);
    if r.Ok? {
      assert [] + r.value.0 == r.value.0;
    }
  }

  /** A loop that skips entries only keeps track of what is left. */
  ghost predicate SameRest<T>(whole: Result<(seq<T>, Bytes)>, part: Result<(seq<T>, Bytes)>) {
    match part
    case Err(e) => whole == Err(e)
    case Ok((_, rest)) => whole.Ok? && whole.value.1 == rest
  }

  lemma SkipManyStep<T>(whole: Result<(seq<T>, Bytes)>, d: Bytes, count: nat, read: Bytes -> Result<(T, Bytes)>)
    requires count > 0 && SameRest(whole, ReadMany(d, count, read))
    ensures read(d).Err? ==> whole == Err(read(d).error)
    ensures read(d).Ok? ==> SameRest(whole, ReadMany(read(d).value.1, count - 1, read))
  {
  }

  lemma ReadManyDone<T>(parsed: seq<T>, d: Bytes, read: Bytes -> Result<(T, Bytes)>)
    ensures Prepend(parsed, ReadMany(d, 0, read)) == Ok((parsed, d))
  {
    assert parsed + [] == parsed;
  }

  /** Printing one more entry at the end of the output. */
  lemma PrintManyStep<T>(buf: Bytes, xs: seq<T>, i: nat, print_: T -> Bytes)
    requires i < |xs|
    ensures buf + PrintMany(xs[i..], print_) == (buf + print_(xs[i])) + PrintMany(xs[i + 1..], print_)
  {
    assert xs[i..][1..] == xs[i + 1..];
    AppendAssoc(buf, print_(xs[i]), PrintMany(xs[i + 1..], print_));
  }

  lemma {:induction false} PrintManyTakesSpace<T>(xs: seq<T>, print_: T -> Bytes, least: nat)
    requires forall x :: x in xs ==> |print_(x)| >= least
    ensures |PrintMany(xs, print_)| >= least * |xs|
  {
    if xs != [] {
      PrintManyTakesSpace(xs[1..], print_, least);
      assert |print_(xs[0])| >= least;
      assert least * |xs| == least * |xs[1..]| + least;
    }
  }

  // ------------------------------------------- arrays read into an accumulator

  /** Reads `count` entries, each step reading one and adding it to `acc`. */
  function FoldMany<A>(d: Bytes, count: nat, acc: A, step: (Bytes, A) -> Result<(A, Bytes)>): Result<(A, Bytes)>
    decreases count
  {
    if count == 0 then Ok((acc, d)) else
    var (acc1, d1) :- step(d, acc);
    FoldMany(d1, count - 1, acc1, step)
  }

  lemma FoldManyStep<A>(d: Bytes, count: nat, acc: A, step: (Bytes, A) -> Result<(A, Bytes)>)
    requires count > 0
    ensures step(d, acc).Err? ==> FoldMany(d, count, acc, step) == Err(step(d, acc).error)
    ensures step(d, acc).Ok? ==>
      FoldMany(d, count, acc, step) == FoldMany(step(d, acc).value.1, count - 1, step(d, acc).value.0, step)
  {
  }
}
