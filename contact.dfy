/** The values shared by every part of the plugin: the contact record, the
    kinds of information a contact query can ask for, and the decimal
    rendering of a contact id. */
module ContactModel {

  /** A value that may be missing, as a nullable cursor column is. */
  datatype Option<T> = None | Some(value: T)

  /** Kotlin's `s ?: ""`: a missing string becomes the empty string. */
  function OrEmpty(s: Option<string>): string
  {
    match s
    case Some(v) => v
    case None => ""
  }

  /** The kinds of contact information the plugin knows about. */
  datatype TargetInfo = Basic | Phones | Emails

  /** `TargetInfo.fromString`: the three lower-case names select their kind,
      and every other string falls back to `Basic`. */
  function FromString(str: string): (t: TargetInfo)
    ensures t == Emails <==> str == "emails"
    ensures t == Phones <==> str == "phones"
    ensures t == Basic <==> str != "emails" && str != "phones"
  {
    if str == "basic" then Basic
    else if str == "emails" then Emails
    else if str == "phones" then Phones
    else Basic
  }

  /** A contact as the plugin hands it to the application layer. */
  datatype Contact = Contact(id: string, displayName: string, phones: seq<string>, emails: seq<string>)

  function DigitChar(d: nat): (c: char)
    requires d < 10
    ensures '0' <= c <= '9'
  {
    (('0' as int) + d) as char
  }

  /** Every character is a decimal digit. */
  predicate AllDigits(s: string)
  {
    forall i :: 0 <= i < |s| ==> '0' <= s[i] <= '9'
  }

  /** The number a string of decimal digits spells, read most significant
      digit first. */
  function DigitsValue(s: string): nat
    requires AllDigits(s)
  {
    if s == [] then 0
    else 10 * DigitsValue(s[..|s| - 1]) + (s[|s| - 1] as int - '0' as int)
  }

  /** The decimal digits of `n`, most significant first, without leading zeros. */
  function NatString(n: nat): (s: string)
    ensures |s| >= 1
    ensures AllDigits(s)
    ensures DigitsValue(s) == n
    ensures s[0] == '0' ==> n == 0
    ensures n < 10 <==> |s| == 1
  {
    if n < 10 then [DigitChar(n)]
    else
      var p := NatString(n / 10);
      var s := p + [DigitChar(n % 10)];
      assert s[..|s| - 1] == p;
      s
  }

  /** `Long.toString`: decimal digits without leading zeros, with a leading
      '-' for a negative id. */
  function IdString(n: int): (s: string)
    ensures |s| >= 1
    ensures n < 0 <==> s[0] == '-'
    ensures n < 0 ==> |s| >= 2 && AllDigits(s[1..]) && DigitsValue(s[1..]) == -n
    ensures n >= 0 ==> AllDigits(s) && DigitsValue(s) == n
    ensures n < 0 ==> s[1] != '0'
    ensures n >= 0 && s[0] == '0' ==> s == "0"
  {
    if n < 0 then
      var s := "-" + NatString(-n);
      assert s[1..] == NatString(-n);
      s
    else NatString(n)
  }

  /** The range of a Kotlin `Long`. */
  predicate IsLong(n: int)
  {
    -0x8000_0000_0000_0000 <= n < 0x8000_0000_0000_0000
  }

  /** A parsed number, refused when it does not fit a `Long`. */
  function InLong(v: int): Option<int>
  {
    if IsLong(v) then Some(v) else None
  }

  /** Kotlin's `String.toLong` in base ten: an optional sign and then at
      least one decimal digit, spelling a number in the range of a `Long`;
      every other string is refused (`NumberFormatException`). */
  function ParseId(s: string): (r: Option<int>)
    ensures r.Some? ==> |s| >= 1 && IsLong(r.value)
    ensures r.Some? && r.value < 0 ==> s[0] == '-'
    ensures s == [] ==> r == None
  {
    if |s| >= 2 && s[0] == '-' && AllDigits(s[1..]) then InLong(0 - DigitsValue(s[1..]))
    else if |s| >= 2 && s[0] == '+' && AllDigits(s[1..]) then InLong(DigitsValue(s[1..]))
    else if |s| >= 1 && AllDigits(s) then InLong(DigitsValue(s))
    else None
  }

  /** Reading an id string back, as the image lookup does with the `id` it
      was given, gives the contact id the string was made from. */
  lemma IdStringRoundTrip(n: int)
    requires IsLong(n)
    ensures ParseId(IdString(n)) == Some(n)
  {
    var s := IdString(n);
    if n >= 0 {
      assert s[0] != '-' && s[0] != '+';
    }
  }

  /** Distinct contact ids are rendered as distinct id strings, so the `id`
      field of a record identifies the key it was stored under. */
  lemma IdStringInjective(a: int, b: int)
    requires IdString(a) == IdString(b)
    ensures a == b
  {
    var s := IdString(a);
    if a < 0 {
      assert a == 0 - DigitsValue(s[1..]) as int == b;
    } else {
      assert a == DigitsValue(s) == b;
    }
  }

  /** No element occurs twice. */
  predicate Distinct<T(==)>(s: seq<T>)
  {
    forall i, j :: 0 <= i < j < |s| ==> s[i] != s[j]
  }

  /** The elements of a sequence, as a set. */
  function Elements<T>(s: seq<T>): set<T>
  {
    set x | x in s
  }

  lemma ElementsSnoc<T>(s: seq<T>, x: T)
    ensures Elements(s + [x]) == Elements(s) + {x}
    ensures Distinct(s) && x !in Elements(s) ==> Distinct(s + [x])
  {
  }

  lemma ElementsPrefix<T>(s: seq<T>, j: nat)
    requires j < |s|
    ensures Elements(s[..j + 1]) == Elements(s[..j]) + {s[j]}
  {
    assert s[..j + 1] == s[..j] + [s[j]];
  }

  lemma {:induction false} ElementsBound<T>(s: seq<T>)
    ensures |Elements(s)| <= |s|
    ensures Distinct(s) ==> |Elements(s)| == |s|
  {
    if s != [] {
      var init := s[..|s| - 1];
      ElementsBound(init);
      assert Elements(s) == Elements(init) + {s[|s| - 1]};
      if Distinct(s) {
        assert s[|s| - 1] !in Elements(init);
      }
    }
  }

  /** A sequence with a repeated element has fewer distinct elements than entries. */
  lemma ElementsRepeated<T>(s: seq<T>)
    requires !Distinct(s)
    ensures |Elements(s)| < |s|
  {
    var i, j :| 0 <= i < j < |s| && s[i] == s[j];
    var t := s[..j] + s[j + 1..];
    assert s == s[..j] + [s[j]] + s[j + 1..];
    assert s[j] == t[i];
    assert Elements(t) == Elements(s);
    ElementsBound(t);
  }

  /** A set of ids that is not empty has an element. */
  lemma Inhabited(s: set<int>)
    requires |s| > 0
    ensures exists x :: x in s
  {
    if forall x :: x !in s {
      assert false;
    }
  }

  /** A set of keys drawn from `s` that is as large as `s` holds every element of `s`. */
  lemma FullWhenLargeEnough<T>(keys: set<T>, s: seq<T>)
    requires forall x :: x in keys ==> x in s
    requires |keys| >= |s|
    ensures forall x :: x in s ==> x in keys
  {
    ElementsBound(s);
    var rest := Elements(s) - keys;
    assert Elements(s) == keys + rest && keys !! rest;
    assert |rest| == 0;
  }
}
