/** Result types and string helpers shared by the other modules. */
module Base {
  datatype Option<+T> = None | Some(value: T)

  datatype Result<+T, +E> = Ok(value: T) | Err(error: E)

  function Min(a: int, b: int): int {
    if a <= b then a else b
  }

  /** The Unicode White_Space characters, which Rust's `trim` removes. */
  predicate IsSpace(c: char) {
    || '\t' <= c <= '\r' || c == ' ' || c == '\U{85}' || c == '\U{A0}' || c == '\U{1680}'
    || '\U{2000}' <= c <= '\U{200A}' || c == '\U{2028}' || c == '\U{2029}' || c == '\U{202F}'
    || c == '\U{205F}' || c == '\U{3000}'
  }

  /** `s.trim().is_empty()` */
  predicate Blank(s: string) {
    forall c | c in s :: IsSpace(c)
  }

  /** A text is blank exactly if all its characters are among the 25 of White_Space. */
  lemma BlankTexts(s: string, c: char)
    ensures Blank("")
    ensures Blank(s + [c]) <==>
              Blank(s) && c in ['\U{9}', '\U{A}', '\U{B}', '\U{C}', '\U{D}', ' ', '\U{85}', '\U{A0}', '\U{1680}', '\U{2000}', '\U{2001}',
                                '\U{2002}', '\U{2003}', '\U{2004}', '\U{2005}', '\U{2006}', '\U{2007}', '\U{2008}', '\U{2009}', '\U{200A}',
                                '\U{2028}', '\U{2029}', '\U{202F}', '\U{205F}', '\U{3000}']
  {
    assert c in s + [c];
    assert forall d :: d in s ==> d in s + [c];
  }

  // ----- texts -----

  lemma Assoc<T>(a: seq<T>, b: seq<T>, c: seq<T>)
    ensures (a + b) + c == a + (b + c)
  {
  }

  lemma TakeBehind<T>(p: seq<T>, t: seq<T>, i: nat)
    requires i <= |t|
    ensures (p + t)[..|p| + i] == p + t[..i]
  {
  }

  lemma DropBehind<T>(p: seq<T>, t: seq<T>, i: nat)
    requires i <= |t|
    ensures (p + t)[|p| + i..] == t[i..]
  {
  }

  lemma TakeInside<T>(w: seq<T>, t: seq<T>, i: nat)
    requires i <= |w|
    ensures (w + t)[..i] == w[..i]
  {
  }

  lemma DropInside<T>(w: seq<T>, t: seq<T>, i: nat)
    requires i <= |w|
    ensures (w + t)[i..] == w[i..] + t
  {
  }

  lemma DropDrop<T>(s: seq<T>, i: nat, k: nat)
    requires i + k <= |s|
    ensures s[i..][k..] == s[i + k..]
  {
  }
}
