/** Vocabulary shared by the server route and the client components:
    optional values, record identifiers, booking status, the four lunch
    flags, an order-keeping filter and the few string helpers JavaScript
    provides built in. */
module Common {

  datatype Option<+T> = None | Some(value: T) {
    function GetOr(default: T): T {
      match this
      case Some(v) => v
      case None => default
    }
  }

  /** Database identifiers are auto-incremented from 1, so an id is never falsy. */
  type Id = n: int | 1 <= n witness 1

  /** The status enumeration of a tutoring request. `Conflict` is declared by
      the schema but never assigned by any operation. */
  datatype Status = Active | Cancelled | Conflict

  datatype LunchName = A | B | C | D

  /** The four lunch-period flags of a request or of a form. */
  datatype Lunches = Lunches(a: bool, b: bool, c: bool, d: bool) {
    function Get(n: LunchName): bool {
      match n
      case A => a
      case B => b
      case C => c
      case D => d
    }

    /** The object spread `{...lunches, [name]: checked}`. */
    function With(n: LunchName, v: bool): (r: Lunches)
      ensures r.Get(n) == v
      ensures forall m :: m != n ==> r.Get(m) == Get(m)
    {
      match n
      case A => this.(a := v)
      case B => this.(b := v)
      case C => this.(c := v)
      case D => this.(d := v)
    }

    /** `Object.values(lunches).some(v => v)` */
    predicate Any() {
      a || b || c || d
    }
  }

  const NoLunches := Lunches(false, false, false, false)

  /** `Array.prototype.filter`: keeps the elements satisfying `p`, in order. */
  function Filter<T(!new)>(p: T -> bool, s: seq<T>): (r: seq<T>)
    ensures |r| <= |s|
    ensures forall x :: x in r <==> x in s && p(x)
  {
    if s == [] then [] else (if p(s[0]) then [s[0]] else []) + Filter(p, s[1..])
  }

  /** Filtering distributes over concatenation, so the relative order of the
      kept elements is the order they had in the input. */
  lemma {:induction false} FilterAppend<T(!new)>(p: T -> bool, s: seq<T>, t: seq<T>)
    ensures Filter(p, s + t) == Filter(p, s) + Filter(p, t)
  {
    if s == [] {
      assert s + t == t;
    } else {
      assert (s + t)[0] == s[0];
      assert (s + t)[1..] == s[1..] + t;
      FilterAppend(p, s[1..], t);
    }
  }

  function LowerChar(c: char): char {
    if 'A' <= c <= 'Z' then (c as int + 32) as char else c
  }

  /** `String.prototype.toLowerCase`, on the ASCII letters. */
  function Lower(s: string): (r: string)
    ensures |r| == |s|
    ensures forall i :: 0 <= i < |s| ==> r[i] == LowerChar(s[i])
  {
    seq(|s|, i requires 0 <= i < |s| => LowerChar(s[i]))
  }

  /** Lowering twice is lowering once. */
  lemma LowerIdempotent(s: string)
    ensures Lower(Lower(s)) == Lower(s)
  {
    forall i | 0 <= i < |s|
      ensures Lower(Lower(s))[i] == Lower(s)[i]
    {
      assert Lower(s)[i] == LowerChar(s[i]);
    }
  }

  /** `String.prototype.includes`. */
  predicate Contains(s: string, t: string) {
    exists i :: 0 <= i <= |s| && OccursAt(s, t, i)
  }

  predicate OccursAt(s: string, t: string, i: int) {
    0 <= i && i + |t| <= |s| && s[i..i + |t|] == t
  }

  predicate IsDigit(c: char) {
    '0' <= c <= '9'
  }

  /** The decimal digits of a natural number, most significant first. */
  function Digits(n: nat): (s: string)
    ensures |s| >= 1
    ensures forall i :: 0 <= i < |s| ==> IsDigit(s[i])
  {
    if n < 10 then [(48 + n) as char] else Digits(n / 10) + [(48 + n % 10) as char]
  }

  /** Left-pads with zeros to at least `w` characters. */
  function PadZero(s: string, w: nat): (r: string)
    ensures |r| == if |s| < w then w else |s|
  {
    if |s| < w then seq(w - |s|, _ => '0') + s else s
  }

  /** Short numbers take few digits. */
  lemma DigitsFit(n: nat)
    ensures n < 10 ==> |Digits(n)| == 1
    ensures n < 100 ==> |Digits(n)| <= 2
    ensures n < 10000 ==> |Digits(n)| <= 4
  {
    if n >= 10 {
      DigitsFit(n / 10);
    }
  }

  /** A positive number's decimal digits start with a non-zero digit. */
  lemma {:induction false} DigitsLead(n: nat)
    requires n >= 1
    ensures Digits(n)[0] != '0'
  {
    if n >= 10 {
      DigitsLead(n / 10);
      assert Digits(n)[0] == Digits(n / 10)[0];
    }
  }

  predicate AllDigits(s: string) {
    forall i :: 0 <= i < |s| ==> IsDigit(s[i])
  }

  /** `parseInt(s, 10)` of a string of decimal digits. */
  function DigitValue(s: string): (n: nat)
    requires AllDigits(s)
  {
    if s == [] then 0 else DigitValue(s[..|s| - 1]) * 10 + (s[|s| - 1] as int - 48)
  }

  /** Reading back the zero-padded digits of a number gives the number. */
  lemma PaddedDigitsValue(n: nat, w: nat)
    ensures AllDigits(PadZero(Digits(n), w))
    ensures DigitValue(PadZero(Digits(n), w)) == n
  {
    DigitsValue(n);
    var s := Digits(n);
    if |s| < w {
      LeadingZerosValue(w - |s|, s);
    }
  }

  lemma {:induction false} DigitsValue(n: nat)
    ensures DigitValue(Digits(n)) == n
  {
    if n >= 10 {
      var s := Digits(n);
      assert s[..|s| - 1] == Digits(n / 10);
      DigitsValue(n / 10);
    }
  }

  lemma {:induction false} LeadingZerosValue(k: nat, s: string)
    requires AllDigits(s)
    ensures AllDigits(seq(k, _ => '0') + s)
    ensures DigitValue(seq(k, _ => '0') + s) == DigitValue(s)
    decreases |s|
  {
    var z: string := seq(k, _ => '0');
    var t := z + s;
    if s == [] {
      assert t == z;
      ZerosValue(k);
    } else {
      assert t[..|t| - 1] == z + s[..|s| - 1];
      LeadingZerosValue(k, s[..|s| - 1]);
    }
  }

  lemma {:induction false} ZerosValue(k: nat)
    ensures AllDigits(seq(k, _ => '0'))
    ensures DigitValue(seq(k, _ => '0')) == 0
  {
    if k > 0 {
      var z: string := seq(k, _ => '0');
      assert z[..k - 1] == seq(k - 1, _ => '0');
      ZerosValue(k - 1);
    }
  }

  /** The template-literal rendering of an integer. */
  function IntToString(n: int): (s: string)
    ensures |s| >= 1
  {
    if n < 0 then "-" + Digits(-n) else Digits(n)
  }
}
