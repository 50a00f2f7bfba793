/** Value types shared by the models. */
module Base {

  datatype Option<+T> = None | Some(value: T)

  /** How one call into the operating system ended. `Crashed` means that the
      process died with the call: the caller returns at once and runs nothing more. */
  datatype Outcome = Ok | Failed | Crashed

  /** The code points of unicode.IsSpace. */
  predicate IsSpace(c: char) {
    var n := c as int;
    || 0x9 <= n <= 0xD || n == 0x20 || n == 0x85 || n == 0xA0 || n == 0x1680
    || 0x2000 <= n <= 0x200A || n == 0x2028 || n == 0x2029 || n == 0x202F || n == 0x205F || n == 0x3000
  }

  /** Nothing but white space, so that strings.TrimSpace gives the empty string. */
  predicate Blank(s: string) { forall i :: 0 <= i < |s| ==> IsSpace(s[i]) }
}
