/** Small shared datatypes. */
module Base {

  /** A value that may be missing. */
  datatype Option<+T> = None | Some(value: T)

  /** The result of a step the original program may abort: `Crash` stands for an
      uncaught C++ exception (std::out_of_range from std::string::substr,
      std::invalid_argument or std::out_of_range from std::stoi), which ends the
      program. */
  datatype Result<+T> = Ok(value: T) | Crash

  /** The last element of a stack kept as a sequence (top at the end). */
  function Top<T>(s: seq<T>): T
    requires |s| > 0
  {
    s[|s| - 1]
  }

  /** The stack with its top removed. */
  function Pop<T>(s: seq<T>): seq<T>
    requires |s| > 0
  {
    s[..|s| - 1]
  }

  /** Popping what was pushed gives the stack back. */
  lemma PushPop<T>(s: seq<T>, x: T)
    ensures Pop(s + [x]) == s && Top(s + [x]) == x
  {
  }

  /** Pushing back what was popped gives the stack back. */
  lemma PopPush<T>(s: seq<T>)
    requires |s| > 0
    ensures Pop(s) + [Top(s)] == s
  {
  }

  /** The sequence in reverse order. */
  function Reverse<T>(s: seq<T>): (r: seq<T>)
    ensures |r| == |s|
    ensures forall i :: 0 <= i < |s| ==> r[i] == s[|s| - 1 - i]
  {
    if |s| == 0 then [] else Reverse(s[1..]) + [s[0]]
  }
}
