/**
 * The bounded tabu list: each iteration appends one entry and, when the
 * list is then longer than its size, drops the oldest one (`pop(0)`).
 */
module TabuMemory {

  /** How many entries a list of the given size may hold after an iteration. */
  function Capacity(size: int): nat
  {
    if size < 0 then 0 else size
  }

  /** The last `size` entries of a history (none when size is not positive). */
  function Window<T>(s: seq<T>, size: int): (w: seq<T>)
    ensures |w| <= |s| && |w| <= Capacity(size)
    ensures |s| <= size ==> w == s
    ensures size >= 0 && |s| > size ==> w == s[|s| - size..]
  {
    if size <= 0 then [] else if |s| <= size then s else s[|s| - size..]
  }

  /** `liste_tabou.append(x)` then `if len(liste_tabou) > taille_tabou: liste_tabou.pop(0)`. */
  function Record<T>(tabu: seq<T>, x: T, size: int): seq<T>
  {
    var grown := tabu + [x];
    if |grown| > size then grown[1..] else grown
  }

  /** Starting within its bound, the list stays within it, and the entry
      just recorded is the newest one when the bound allows any entry. */
  lemma RecordBounded<T>(tabu: seq<T>, x: T, size: int)
    requires |tabu| <= Capacity(size)
    ensures |Record(tabu, x, size)| <= Capacity(size)
    ensures size >= 1 ==> |Record(tabu, x, size)| >= 1 && Record(tabu, x, size)[|Record(tabu, x, size)| - 1] == x
  {
  }

  /** Recording into the window of a history gives the window of the longer
      history: the list always holds the most recent entries, oldest first,
      and the oldest leaves first. */
  lemma RecordSlides<T>(s: seq<T>, x: T, size: int)
    ensures Record(Window(s, size), x, size) == Window(s + [x], size)
  {
    if size > 0 && |s| > size {
      var w := s[|s| - size..];
      assert (w + [x])[1..] == (s + [x])[|s| + 1 - size..];
    }
  }

  /** When the list may hold any entry, the newest entry of a non-empty
      history is the newest entry of its window. */
  lemma WindowNewest<T>(s: seq<T>, size: int)
    requires size >= 1 && |s| >= 1
    ensures |Window(s, size)| >= 1 && Window(s, size)[|Window(s, size)| - 1] == s[|s| - 1]
  {
  }

  /** A record that evicts removes exactly the oldest entry. */
  lemma RecordEvictsOldest<T>(tabu: seq<T>, x: T, size: int)
    requires |tabu| == size && size >= 1
    ensures Record(tabu, x, size) == tabu[1..] + [x]
  {
  }

  /** `len(str(n))`: the decimal digits of n, and the minus sign of a negative n. */
  function StrLen(n: int): nat
  {
    if n < 0 then 1 + Digits(-n) else Digits(n)
  }

  /** How many decimal digits write the natural number m (one for 0). */
  function Digits(m: nat): nat
  {
    if m < 10 then 1 else 1 + Digits(m / 10)
  }

  function Pow10(e: nat): nat
  {
    if e == 0 then 1 else 10 * Pow10(e - 1)
  }

  /** Digits(m) is the length of m written in base ten: m lies between
      10^(d-1) and 10^d - 1. */
  lemma {:induction false} DigitsBounds(m: nat)
    requires m >= 1
    ensures Pow10(Digits(m) - 1) <= m < Pow10(Digits(m))
    decreases m
  {
    if m >= 10 {
      DigitsBounds(m / 10);
    }
  }

  /** `taille_tabou = max(30, 10 * len(str(n)) - 1 + k)` of vrp_solver.py,
      vrp.py and test.py. */
  function TabuSize(n: int, k: int): (size: int)
    ensures size >= 30 && size >= 10 * StrLen(n) - 1 + k
  {
    if 10 * StrLen(n) - 1 + k > 30 then 10 * StrLen(n) - 1 + k else 30
  }
}
