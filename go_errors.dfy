/**
 * Go `error` values as the list of messages of the causes they carry.
 * `[]` is the nil error; `errors.Join` concatenates cause lists (it skips
 * nil arguments and returns nil when every argument is nil), and the text
 * of a joined error is its causes' texts separated by newlines.
 */
module GoErrors {
  import GoStrings

  /** The messages of an error's causes, in order; `[]` is nil. */
  type Err = seq<string>

  /** `errors.New(msg)`: a non-nil error with one cause. */
  function New(msg: string): (e: Err)
    ensures e != [] && Text(e) == msg
  {
    [msg]
  }

  /** `errors.Join(a, b)`. */
  function Join(a: Err, b: Err): (e: Err)
    ensures e == [] <==> a == [] && b == []
    ensures |e| == |a| + |b|
  {
    a + b
  }

  /** `err.Error()`: the causes' messages separated by newlines. */
  function Text(e: Err): string
  {
    GoStrings.Join(e, '\n')
  }

  /** `fmt.Errorf(prefix + "%w", e)`: one cause whose message is the prefix and the text of `e`. */
  function Wrap(prefix: string, e: Err): (w: Err)
    ensures |w| == 1 && |w[0]| >= |prefix| && w[0][..|prefix|] == prefix
  {
    [prefix + (if e == [] then "%!w(<nil>)" else Text(e))]
  }
}
