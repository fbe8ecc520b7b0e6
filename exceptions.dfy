/**
 * The exception types of json_exception.hpp: json_exception_impl, key_not_found, not_an_object
 * and serialization_error, with the text each one's what() returns.
 *
 * An std::error_code is modelled by its value and the text its message() returns; that text
 * comes from the error category and is an input here. Decimal printing of a size_t through an
 * std::ostringstream (classic locale, no grouping) is the function Decimal.
 */
module Exceptions {
  import Options

  type SizeT = Options.SizeT

  /** An std::error_code: its value (0 means no error) and the text of message(). */
  datatype ErrorCode = ErrorCode(value: int, message: string)

  /** A default-constructed std::error_code: value 0 in the system category, whose message
      is "Success" on the GNU C library. */
  const DefaultCode: ErrorCode := ErrorCode(0, "Success")

  // ---------------------------------------------------------------------------------------
  // Decimal printing of an unsigned integer
  // ---------------------------------------------------------------------------------------

  predicate IsDigit(c: char)
  {
    '0' <= c <= '9'
  }

  predicate AllDigits(s: string)
  {
    forall i :: 0 <= i < |s| ==> IsDigit(s[i])
  }

  /** The text `os << n` writes for an unsigned n: at least one digit and no leading zero. */
  function Decimal(n: nat): (s: string)
    ensures |s| >= 1 && AllDigits(s)
    ensures s[0] == '0' ==> n == 0 && s == "0"
    decreases n
  {
    var last := ['0' + (n % 10) as char];
    if n < 10 then last else Decimal(n / 10) + last
  }

  /** The number a string of decimal digits stands for. */
  function DigitsValue(s: string): nat
    requires AllDigits(s)
    decreases |s|
  {
    if s == [] then 0 else 10 * DigitsValue(s[..|s| - 1]) + (s[|s| - 1] - '0') as nat
  }

  /** Reading back what Decimal printed gives the number. */
  lemma {:induction false} DecimalRoundTrip(n: nat)
    ensures DigitsValue(Decimal(n)) == n
    decreases n
  {
    var s := Decimal(n);
    if n >= 10 {
      DecimalRoundTrip(n / 10);
      assert s[..|s| - 1] == Decimal(n / 10);
    }
  }

  /** Different numbers print differently. */
  lemma {:induction false} DecimalInjective(m: nat, n: nat)
    ensures Decimal(m) == Decimal(n) ==> m == n
  {
    DecimalRoundTrip(m);
    DecimalRoundTrip(n);
  }

  /** A run of digits followed by a space is delimited by that space: two such texts that are
      equal have the same digits and the same rest. */
  lemma {:induction false} DigitsBeforeSpace(a: string, x: string, b: string, y: string)
    requires AllDigits(a) && AllDigits(b)
    requires |x| > 0 && x[0] == ' ' && |y| > 0 && y[0] == ' '
    requires a + x == b + y
    ensures a == b && x == y
  {
    assert a == (a + x)[..|a|];
    assert b == (b + y)[..|b|];
    assert x == (a + x)[|a|..];
    assert y == (b + y)[|b|..];
  }

  // ---------------------------------------------------------------------------------------
  // json_exception_impl
  // ---------------------------------------------------------------------------------------

  /** json_exception_impl<Base>: an exception carrying a message given at construction. */
  class JsonExceptionImpl {
    const message: string

    constructor (s: string)
      ensures What() == s
    {
      message := s;
    }

    /** what() returns the constructor's string unchanged. */
    function What(): (s: string)
      ensures s == message
    {
      message
    }
  }

  // ---------------------------------------------------------------------------------------
  // key_not_found and not_an_object
  // ---------------------------------------------------------------------------------------

  const KeyNotFoundPrefix: string := "Key '"
  const KeyNotFoundSuffix: string := "' not found"
  const NotAnObjectPrefix: string := "Attempting to access or modify '"
  const NotAnObjectSuffix: string := "' on a value that is not an object"

  /** The text a key sits in: prefix, the key, suffix. The key can be cut back out of it. */
  function Quoted(prefix: string, key: string, suffix: string): (s: string)
    ensures |s| == |prefix| + |key| + |suffix|
    ensures s[..|prefix|] == prefix && s[|s| - |suffix|..] == suffix
    ensures s[|prefix|..|s| - |suffix|] == key
  {
    var s := prefix + key + suffix;
    assert s[..|prefix|] == prefix;
    assert s[|s| - |suffix|..] == suffix;
    assert s[|prefix|..|s| - |suffix|] == key;
    s
  }

  /** Two keys give the same message only if they are the same key. */
  lemma {:induction false} QuotedInjective(prefix: string, k1: string, k2: string, suffix: string)
    ensures Quoted(prefix, k1, suffix) == Quoted(prefix, k2, suffix) ==> k1 == k2
  {
    var s1, s2 := Quoted(prefix, k1, suffix), Quoted(prefix, k2, suffix);
    if s1 == s2 {
      assert k1 == s1[|prefix|..|s1| - |suffix|];
    }
  }

  /** key_not_found(key, length): the message quotes the first length characters of key. */
  class KeyNotFound {
    var buffer: string
    /** The part of the key the message quotes. */
    ghost const quoted: string

    /** The buffer is the prefix, the quoted key and the suffix. */
    ghost predicate Valid()
      reads this
    {
      buffer == Quoted(KeyNotFoundPrefix, quoted, KeyNotFoundSuffix)
    }

    constructor (key: string, length: SizeT)
      requires length <= |key|
      ensures quoted == key[..length] && Valid()
    {
      quoted := key[..length];
      buffer := "";
      new;
      buffer := buffer + KeyNotFoundPrefix;
      assert buffer == KeyNotFoundPrefix;
      buffer := buffer + key[..length];
      buffer := buffer + KeyNotFoundSuffix;
    }

    /** what(): the fixed prefix, then the quoted key, then the fixed suffix. */
    function What(): (s: string)
      reads this
      requires Valid()
      ensures |s| == |KeyNotFoundPrefix| + |quoted| + |KeyNotFoundSuffix|
      ensures s[..|KeyNotFoundPrefix|] == KeyNotFoundPrefix && s[|s| - |KeyNotFoundSuffix|..] == KeyNotFoundSuffix
      ensures s[|KeyNotFoundPrefix|..|s| - |KeyNotFoundSuffix|] == quoted
    {
      buffer
    }
  }

  /** not_an_object(key, length): the message quotes the first length characters of key. */
  class NotAnObject {
    var buffer: string
    /** The part of the key the message quotes. */
    ghost const quoted: string

    /** The buffer is the prefix, the quoted key and the suffix. */
    ghost predicate Valid()
      reads this
    {
      buffer == Quoted(NotAnObjectPrefix, quoted, NotAnObjectSuffix)
    }

    constructor (key: string, length: SizeT)
      requires length <= |key|
      ensures quoted == key[..length] && Valid()
    {
      quoted := key[..length];
      buffer := "";
      new;
      buffer := buffer + NotAnObjectPrefix;
      assert buffer == NotAnObjectPrefix;
      buffer := buffer + key[..length];
      buffer := buffer + NotAnObjectSuffix;
    }

    /** what(): the fixed prefix, then the quoted key, then the fixed suffix. */
    function What(): (s: string)
      reads this
      requires Valid()
      ensures |s| == |NotAnObjectPrefix| + |quoted| + |NotAnObjectSuffix|
      ensures s[..|NotAnObjectPrefix|] == NotAnObjectPrefix && s[|s| - |NotAnObjectSuffix|..] == NotAnObjectSuffix
      ensures s[|NotAnObjectPrefix|..|s| - |NotAnObjectSuffix|] == quoted
    {
      buffer
    }
  }

  /** The two messages for the same key are different texts. */
  lemma {:induction false} MessagesDiffer(key: string)
    ensures Quoted(KeyNotFoundPrefix, key, KeyNotFoundSuffix)
         != Quoted(NotAnObjectPrefix, key, NotAnObjectSuffix)
  {
    var s1 := Quoted(KeyNotFoundPrefix, key, KeyNotFoundSuffix);
    var s2 := Quoted(NotAnObjectPrefix, key, NotAnObjectSuffix);
    assert s1[..5][0] == 'K';
    assert s2[..32][0] == 'A';
  }

  // ---------------------------------------------------------------------------------------
  // serialization_error
  // ---------------------------------------------------------------------------------------

  /** The location part of serialization_error::what(): line and column when both are
      nonzero, the column alone as a position when only it is nonzero, nothing otherwise. */
  function Location(line: nat, column: nat): (s: string)
    ensures s == "" <==> column == 0
    ensures column != 0 ==> |s| > 4 && s[..4] == " at " && s[4] == (if line != 0 then 'l' else 'p')
  {
    if line != 0 && column != 0 then " at line " + Decimal(line) + " and column " + Decimal(column)
    else if column != 0 then " at position " + Decimal(column)
    else ""
  }

  /** The text serialization_error::what() returns: the code's message, then the location.
      The message is never altered, and a zero column means no location at all, whatever
      the line. */
  function WhatText(code: ErrorCode, line: nat, column: nat): (s: string)
    ensures |s| >= |code.message| && s[..|code.message|] == code.message
    ensures s == code.message <==> column == 0
  {
    var s := code.message + Location(line, column);
    assert s[..|code.message|] == code.message;
    s
  }

  /** Equal texts with the same head have the same rest. */
  lemma {:induction false} DropHead(head: string, x: string, y: string)
    requires head + x == head + y
    ensures x == y
  {
    assert x == (head + x)[|head|..];
    assert y == (head + y)[|head|..];
  }

  /** The line-and-column form gives both numbers back. */
  lemma {:induction false} LineFormInjective(l1: nat, c1: nat, l2: nat, c2: nat)
    requires " at line " + Decimal(l1) + " and column " + Decimal(c1)
          == " at line " + Decimal(l2) + " and column " + Decimal(c2)
    ensures l1 == l2 && c1 == c2
  {
    var head, mid := " at line ", " and column ";
    assert head + Decimal(l1) + mid + Decimal(c1) == head + (Decimal(l1) + (mid + Decimal(c1)));
    assert head + Decimal(l2) + mid + Decimal(c2) == head + (Decimal(l2) + (mid + Decimal(c2)));
    DropHead(head, Decimal(l1) + (mid + Decimal(c1)), Decimal(l2) + (mid + Decimal(c2)));
    DigitsBeforeSpace(Decimal(l1), mid + Decimal(c1), Decimal(l2), mid + Decimal(c2));
    DropHead(mid, Decimal(c1), Decimal(c2));
    DecimalInjective(l1, l2);
    DecimalInjective(c1, c2);
  }

  /** The location text says which of the three forms it is, and gives the numbers back. */
  lemma {:induction false} LocationInjective(l1: nat, c1: nat, l2: nat, c2: nat)
    requires Location(l1, c1) == Location(l2, c2)
    ensures c1 == c2
    ensures c1 != 0 ==> (l1 == 0 <==> l2 == 0)
    ensures c1 != 0 && l1 != 0 ==> l1 == l2
  {
    if c1 == 0 || c2 == 0 {
      if c1 != 0 || c2 != 0 {
        assert false;
      }
    } else if l1 != 0 && l2 != 0 {
      LineFormInjective(l1, c1, l2, c2);
    } else if l1 == 0 && l2 == 0 {
      DropHead(" at position ", Decimal(c1), Decimal(c2));
      DecimalInjective(c1, c2);
    } else {
      assert false;
    }
  }

  /** For a given code, what() determines the column, whether a line is shown, and the line
      when it is shown. */
  lemma {:induction false} WhatDeterminesLocation(code: ErrorCode, l1: nat, c1: nat, l2: nat, c2: nat)
    requires WhatText(code, l1, c1) == WhatText(code, l2, c2)
    ensures c1 == c2
    ensures c1 != 0 ==> (l1 == 0 <==> l2 == 0)
    ensures c1 != 0 && l1 != 0 ==> l1 == l2
  {
    var m := code.message;
    var s := WhatText(code, l1, c1);
    assert Location(l1, c1) == (m + Location(l1, c1))[|m|..];
    assert Location(l2, c2) == (m + Location(l2, c2))[|m|..];
    LocationInjective(l1, c1, l2, c2);
  }

  /** serialization_error: an error code with the line and column where it was detected. */
  class SerializationError {
    const code: ErrorCode
    const line: SizeT
    const column: SizeT
    /** The text the last call of what() produced. */
    var buffer: string

    /** serialization_error(): a default code, no location. */
    constructor ()
      ensures code == DefaultCode && line == 0 && column == 0 && buffer == ""
    {
      code, line, column := DefaultCode, 0, 0;
      buffer := "";
    }

    /** serialization_error(ec): no location. */
    constructor FromCode(ec: ErrorCode)
      ensures code == ec && line == 0 && column == 0 && buffer == ""
    {
      code, line, column := ec, 0, 0;
      buffer := "";
    }

    /** serialization_error(ec, position): the position is kept as the column, line 0. */
    constructor AtPosition(ec: ErrorCode, position: SizeT)
      ensures code == ec && line == 0 && column == position && buffer == ""
    {
      code, line, column := ec, 0, position;
      buffer := "";
    }

    /** serialization_error(ec, line, column). */
    constructor AtLineColumn(ec: ErrorCode, line: SizeT, column: SizeT)
      ensures code == ec && this.line == line && this.column == column && buffer == ""
    {
      code, this.line, this.column := ec, line, column;
      buffer := "";
    }

    /** The copy constructor copies the code, line and column; the buffer starts empty. */
    constructor Copy(other: SerializationError)
      ensures code == other.code && line == other.line && column == other.column && buffer == ""
    {
      code, line, column := other.code, other.line, other.column;
      buffer := "";
    }

    /** what(): formats the text into the buffer and returns it. */
    method What() returns (s: string)
      modifies this`buffer
      ensures s == WhatText(code, line, column) && buffer == s
    {
      var os := code.message;
      if line != 0 && column != 0 {
        os := os + " at line " + Decimal(line) + " and column " + Decimal(column);
      } else if column != 0 {
        os := os + " at position " + Decimal(column);
      }
      buffer := os;
      s := buffer;
    }
  }
}
