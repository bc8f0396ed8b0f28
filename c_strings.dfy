/**
 * The two conversions between Rust strings and C strings that the core
 * uses: `CStr::from_ptr` on a fixed-size, NUL-terminated name buffer
 * reported by the driver, and `CString::new` on a requested name.
 */
module CStrings {

  /**
   * `CStr::from_ptr(buf.as_ptr())`: the characters before the first NUL.
   * The driver always terminates its name buffers; a buffer without a NUL is
   * read to its end.
   */
  function FromPtr(buf: seq<char>): (s: string)
    ensures |s| <= |buf| && s == buf[..|s|]
    ensures '\0' !in s
    ensures |s| < |buf| ==> buf[|s|] == '\0'
  {
    if buf == [] || buf[0] == '\0' then [] else [buf[0]] + FromPtr(buf[1..])
  }

  /** A list of driver name buffers, each read with `FromPtr`. */
  function Names(buffers: seq<seq<char>>): (names: seq<string>)
    ensures |names| == |buffers|
    ensures forall i :: 0 <= i < |names| ==> names[i] == FromPtr(buffers[i])
  {
    seq(|buffers|, i requires 0 <= i < |buffers| => FromPtr(buffers[i]))
  }

  /** `CString::new(s)`, which fails when `s` holds a NUL; otherwise one NUL is appended. */
  function New(s: string): (c: seq<char>)
    requires '\0' !in s
    ensures |c| == |s| + 1 && c[|s|] == '\0' && c[..|s|] == s
  {
    s + ['\0']
  }

  /** Reading back a converted name gives the name. */
  lemma FromPtrOfNew(s: string)
    requires '\0' !in s
    ensures FromPtr(New(s)) == s
  {
  }
}
