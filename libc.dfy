/**
 * The C-level vocabulary that data.c is written in: NUL-terminated strings held
 * in char buffers, pointers into those buffers, the platform's error codes, and
 * the two C library routines the file relies on (strdup and snprintf).
 */
module LibC {

  /** A value that may be absent: a pointer that may be NULL, a getter that may fail. */
  datatype Option<T> = None | Some(value: T)

  /** The two application error codes that data.c returns. */
  datatype AppError = ErrorNone | ErrorInvalidParameter

  /** The string terminator. */
  const NUL: char := '\0'

  /** PATH_MAX from the Linux <limits.h> the platform builds against. */
  const PATH_MAX: nat := 4096

  /** The characters of a C string: a sequence that holds no terminator. */
  type CString = s: seq<char> | NUL !in s

  /** A `char *`: a buffer and an offset into it. */
  datatype Ptr = Ptr(buf: array<char>, off: nat)

  /** A caller's `char *` variable, which a callee reaches through a `char **`. */
  class CharPtrVar {
    var value: Option<Ptr>

    constructor ()
      ensures value == None
    {
      value := None;
    }
  }

  /**
   * The C string that starts at `a[off]`: every character up to the first NUL.
   * A buffer that holds no NUL from `off` on reads to its end; IsCString rules
   * that out wherever C would read past the buffer.
   */
  function CStr(a: array<char>, off: nat): (s: seq<char>)
    reads a
    requires off <= a.Length
    ensures NUL !in s
    ensures off + |s| <= a.Length && a[off..off + |s|] == s
    ensures off + |s| < a.Length ==> a[off + |s|] == NUL
    decreases a.Length - off
  {
    if off == a.Length || a[off] == NUL then [] else [a[off]] + CStr(a, off + 1)
  }

  /** `a[off..]` holds a terminated C string. */
  predicate IsCString(a: array<char>, off: nat)
    reads a
  {
    off <= a.Length && off + |CStr(a, off)| < a.Length
  }

  /** A terminated run of characters at `a[off]` is the C string read there. */
  lemma {:induction false} CStrIs(a: array<char>, off: nat, t: seq<char>)
    requires NUL !in t
    requires off + |t| < a.Length
    requires a[off..off + |t|] == t && a[off + |t|] == NUL
    ensures CStr(a, off) == t
    ensures IsCString(a, off)
    decreases |t|
  {
    if t != [] {
      assert a[off] == t[0];
      assert a[off + 1..off + 1 + |t[1..]|] == t[1..];
      CStrIs(a, off + 1, t[1..]);
    }
  }

  /**
   * What snprintf(buf, size, ...) leaves in `buf` for formatted text `s`:
   * at most size - 1 characters, the text itself when it fits, otherwise its
   * longest prefix that fits (section 7.21.6.5 of ISO C11).
   */
  function Truncated(s: seq<char>, size: nat): (r: seq<char>)
    requires size > 0
    ensures |r| < size
    ensures r <= s
    ensures r == s <==> |s| < size
    ensures |s| >= size ==> |r| == size - 1
  {
    if |s| < size then s else s[..size - 1]
  }

  /** strdup: a fresh buffer holding a copy of the C string at `source`. */
  method StrDup(source: array<char>) returns (dst: array<char>)
    requires IsCString(source, 0)
    ensures fresh(dst)
    ensures dst[..] == CStr(source, 0) + [NUL]
  {
    var s := CStr(source, 0);
    dst := new char[|s| + 1](j => if 0 <= j < |s| then s[j] else NUL);
    assert dst[..] == s + [NUL] by {
      assert forall j | 0 <= j < |s| :: dst[j] == s[j];
    }
  }

  /**
   * snprintf(buf, size, "%s...", ...) once the format has produced `s`: the
   * truncated text and one terminator are written, the rest of `buf` is left.
   */
  method Snprintf(buf: array<char>, size: nat, s: CString)
    requires 0 < size <= buf.Length
    modifies buf
    ensures buf[..] == Truncated(s, size) + [NUL] + old(buf[|Truncated(s, size)| + 1..])
    ensures CStr(buf, 0) == Truncated(s, size)
  {
    var t := Truncated(s, size);
    forall j | 0 <= j < |t| {
      buf[j] := t[j];
    }
    buf[|t|] := NUL;
    assert buf[..|t|] == t;
    assert buf[..] == t + [NUL] + old(buf[|t| + 1..]);
    CStrIs(buf, 0, t);
  }
}
