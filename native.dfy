/** Machine-level values the agent handles: fixed-width integers, an optional
    value, and the foreign process memory that the agent reads through raw
    pointers. */
module Native {

  /** Rust `u8`: the type of a best-effort priority level. */
  newtype u8 = x: int | 0 <= x < 0x100

  /** Rust `i32`: the width of a field offset in the layout table and of an
      operating-system thread id. */
  newtype i32 = x: int | -0x8000_0000 <= x < 0x8000_0000

  datatype Option<+T> = None | Some(value: T)

  /** The null pointer. */
  const NULL: int := 0

  /** Foreign memory as seen through unchecked raw reads. `word(a)` is the
      pointer-sized value stored at address `a` (a `*const *const c_char` or a
      `*const isize` read), `int32(a)` the `i32` stored there, and
      `cString(p)` the NUL-terminated string that starts at a non-null `p`.
      Every read is total: nothing here checks that an address is valid. */
  datatype Memory = Memory(word: int -> int, int32: int -> i32, cString: int -> string)
}
