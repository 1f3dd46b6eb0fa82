/** The major number handed over as text: the kernel prints a /proc entry, the server parses its second line. */
module ProcText {
  import opened Common

  const INT_MIN := -0x8000_0000
  const LONG_MAX := 0x7FFF_FFFF_FFFF_FFFF
  const ERANGE := 34
  const CDEV_NAME := "lxc-uio-proxy"

  // ---------------------------------------------------------------- printing

  function Digit(d: nat): char
    requires d < 10
  {
    "0123456789"[d]
  }

  function Digits(n: nat): string {
    if n < 10 then [Digit(n)] else Digits(n / 10) + [Digit(n % 10)]
  }

  /** `%d` and `%lld` */
  function Decimal(x: int): string {
    if x < 0 then "-" + Digits(-x) else Digits(x)
  }

  function MajorLine(major: int): string {
    "major number [" + Decimal(major) + "] \n"
  }

  function TableLine(address: string, size: int, entries: int, index: int): string {
    "module_table: {address [" + address + "],table_size [" + Decimal(size) + "], num_entries [" + Decimal(entries)
    + "], table_index [" + Decimal(index) + "] }\n"
  }

  /** `lxc_uio_proc_show` */
  function ProcShow(major: int, address: string, size: int, entries: int, index: int): string {
    CDEV_NAME + " \n" + MajorLine(major) + TableLine(address, size, entries, index)
  }

  // ---------------------------------------------------------------- what the parser computes

  predicate IsDigit(c: char) { '0' <= c <= '9' }

  function DigitValue(c: char): nat
    requires IsDigit(c)
  {
    c as int - '0' as int
  }

  /** Length of the first line, its newline included. */
  function LineLength(text: string): nat {
    if text == [] then 0
    else if text[0] == '\n' then 1
    else 1 + LineLength(text[1..])
  }

  lemma {:induction false} LineLengthBound(text: string)
    ensures LineLength(text) <= |text|
  {
    if text != [] && text[0] != '\n' {
      LineLengthBound(text[1..]);
    }
  }

  /** Position of the first digit, or the length. */
  function FirstDigit(s: string): nat {
    if s == [] || IsDigit(s[0]) then 0 else 1 + FirstDigit(s[1..])
  }

  lemma {:induction false} FirstDigitBound(s: string)
    ensures FirstDigit(s) <= |s|
    ensures FirstDigit(s) < |s| ==> IsDigit(s[FirstDigit(s)])
  {
    if s != [] && !IsDigit(s[0]) {
      FirstDigitBound(s[1..]);
    }
  }

  /** The number spelled by `s` up to its first character that is no digit, after digits worth `acc`. */
  function Number(s: string, acc: nat): nat {
    if s == [] || !IsDigit(s[0]) then acc else Number(s[1..], 10 * acc + DigitValue(s[0]))
  }

  /** The number that a text of two lines or more leads to; `errno` is the value before the conversion. */
  function MajorOf(text: string, errno: int): int {
    LineLengthBound(text);
    var rest := text[LineLength(text)..];
    LineLengthBound(rest);
    var line := rest[..LineLength(rest)];
    FirstDigitBound(line);
    var number := Number(line[FirstDigit(line)..], 0);
    if FirstDigit(line) == |line| || errno != 0 || number > INT_MAX then -1 else number
  }

  // ---------------------------------------------------------------- the parser

  /** `getdelim`: the line at `pos`, or None at the end of the file. */
  method GetLine(text: string, pos: nat) returns (line: Option<string>, next: nat)
    requires pos <= |text|
    ensures next <= |text| && next == pos + LineLength(text[pos..])
    ensures line == if pos == |text| then None else Some(text[pos..next])
  {
    next := pos;
    if pos == |text| {
      return None, next;
    }
    while next < |text| && text[next] != '\n'
      invariant pos <= next <= |text|
      invariant LineLength(text[pos..]) == next - pos + LineLength(text[next..])
    {
      assert text[next..][1..] == text[next + 1..];
      next := next + 1;
    }
    if next < |text| {
      next := next + 1;
    }
    line := Some(text[pos..next]);
  }

  /** `strtol` where a digit is known to stand: saturates, with ERANGE. */
  method StrToL(s: string, errno: int) returns (value: nat, errno': int)
    ensures value == if Number(s, 0) < 0x8000_0000_0000_0000 then Number(s, 0) else 0x7FFF_FFFF_FFFF_FFFF
    ensures errno' == if Number(s, 0) < 0x8000_0000_0000_0000 then errno else 34
  {
    value, errno' := 0, errno;
    var k := 0;
    while k < |s| && IsDigit(s[k])
      invariant 0 <= k <= |s|
      invariant Number(s, 0) == Number(s[k..], value)
    {
      assert s[k..][1..] == s[k + 1..];
      value := 10 * value + DigitValue(s[k]);
      k := k + 1;
    }
    if value > LONG_MAX {
      value, errno' := LONG_MAX, ERANGE;
    }
  }

  /** The scan for the first digit, and the conversion with its checks. */
  method ParseLine(line: string, errno: int) returns (major: int)
    requires line != []
    ensures FirstDigit(line) <= |line|
    ensures var number := Number(line[FirstDigit(line)..], 0);
            major == if FirstDigit(line) == |line| || errno != 0 || number > INT_MAX then -1 else number
  {
    var len := |line|;
    FirstDigitBound(line);
    var p := 0;
    while !IsDigit(line[p])
      invariant 0 <= p < len == |line|
      invariant FirstDigit(line) == p + FirstDigit(line[p..])
      decreases len - p
    {
      assert line[p..][1..] == line[p + 1..];
      p := p + 1;
      if p >= len {
        return -1;
      }
    }
    var number, errno' := StrToL(line[p..], errno);
    if errno' != 0 {
      return -1;
    }
    if number > INT_MAX {
      return -1;
    }
    major := number;
  }

  /** `get_major_number`; the first four arguments say whether the file and the buffer could be had. */
  method GetMajorNumber(present: bool, readable: bool, couldOpen: bool, gotBuffer: bool, text: string, errno: int)
    returns (major: int)
    ensures major == if present && readable && couldOpen && gotBuffer then MajorOf(text, errno) else -1
    ensures -1 <= major <= INT_MAX
  {
    if !present {
      return -1;
    }
    if !readable {
      return -1;
    }
    if !couldOpen {
      return -1;
    }
    if !gotBuffer {
      return -1;
    }
    assert text[0..] == text;
    var line, pos := GetLine(text, 0);
    if line.None? {
      return -1;
    }
    var end;
    line, end := GetLine(text, pos);
    if line.None? {
      return -1;
    }
    ghost var rest := text[pos..];
    assert text[pos..end] == rest[..LineLength(rest)];
    major := ParseLine(line.value, errno);
  }

  // ---------------------------------------------------------------- reading back what was printed

  lemma DigitIsRead(d: nat, rest: string, acc: nat)
    requires d < 10
    ensures Number([Digit(d)] + rest, acc) == Number(rest, 10 * acc + d)
  {
    assert ([Digit(d)] + rest)[1..] == rest;
    assert IsDigit(Digit(d)) && DigitValue(Digit(d)) == d;
  }

  /** Reading printed digits gives the number they were printed from. */
  lemma {:induction false} DigitsAreRead(n: nat, rest: string)
    ensures Number(Digits(n) + rest, 0) == Number(rest, n)
  {
    if n < 10 {
      DigitIsRead(n, rest, 0);
    } else {
      var last := [Digit(n % 10)];
      assert Digits(n) + rest == Digits(n / 10) + (last + rest);
      DigitsAreRead(n / 10, last + rest);
      DigitIsRead(n % 10, rest, n / 10);
    }
  }

  lemma {:induction false} StartsWithDigit(n: nat)
    ensures |Digits(n)| > 0 && IsDigit(Digits(n)[0])
    ensures forall k :: 0 <= k < |Digits(n)| ==> IsDigit(Digits(n)[k])
  {
    if n >= 10 {
      StartsWithDigit(n / 10);
    }
  }

  lemma {:induction false} SkipNonDigits(prefix: string, rest: string)
    requires forall k :: 0 <= k < |prefix| ==> !IsDigit(prefix[k])
    ensures FirstDigit(prefix + rest) == |prefix| + FirstDigit(rest)
  {
    if prefix == "" {
      assert prefix + rest == rest;
    } else {
      SkipNonDigits(prefix[1..], rest);
      assert (prefix + rest)[1..] == prefix[1..] + rest;
    }
  }

  lemma {:induction false} LineEndsAtNewline(prefix: string, rest: string)
    requires forall k :: 0 <= k < |prefix| ==> prefix[k] != '\n'
    ensures LineLength(prefix + "\n" + rest) == |prefix| + 1
  {
    if prefix != "" {
      LineEndsAtNewline(prefix[1..], rest);
      assert (prefix + "\n" + rest)[1..] == prefix[1..] + "\n" + rest;
    }
  }

  function Abs(x: int): nat { if x < 0 then -x else x }

  /** Digits after a minus sign or without one; what follows them is ignored. */
  function SignedNumber(s: string): int {
    if s != "" && s[0] == '-' then 0 - Number(s[1..], 0) else Number(s, 0)
  }

  /** Reading a printed number, sign included, gives that number. */
  lemma DecimalIsRead(x: int, rest: string)
    requires rest != "" && !IsDigit(rest[0])
    ensures SignedNumber(Decimal(x) + rest) == x
  {
    hide Digits;
    StartsWithDigit(Abs(x));
    DigitsAreRead(Abs(x), rest);
    var s := Decimal(x) + rest;
    assert Number(rest, Abs(x)) == Abs(x);
    if x < 0 {
      assert s[0] == '-' && s[1..] == Digits(Abs(x)) + rest;
    } else {
      assert s[0] == Digits(Abs(x))[0];
    }
  }

  /** The numbers that stand right after each opening bracket of a text, in order. */
  function Fields(s: string): seq<int> {
    if s == "" then []
    else (if s[0] == '[' then [SignedNumber(s[1..])] else []) + Fields(s[1..])
  }

  lemma {:induction false} FieldsSkip(prefix: string, rest: string)
    requires '[' !in prefix
    ensures Fields(prefix + rest) == Fields(rest)
  {
    if prefix == "" {
      assert prefix + rest == rest;
    } else {
      FieldsSkip(prefix[1..], rest);
      assert (prefix + rest)[1..] == prefix[1..] + rest;
    }
  }

  /** Whatever a text begins with, the fields of its rest are its last ones. */
  lemma {:induction false} FieldsEnd(prefix: string, rest: string) returns (before: seq<int>)
    ensures Fields(prefix + rest) == before + Fields(rest)
  {
    before := [];
    if prefix == "" {
      assert prefix + rest == rest;
    } else {
      var more := FieldsEnd(prefix[1..], rest);
      before := (if prefix[0] == '[' then [SignedNumber((prefix + rest)[1..])] else []) + more;
      assert (prefix + rest)[1..] == prefix[1..] + rest;
    }
  }

  /** A text without brackets, but for one at its end. */
  predicate OpensLast(lead: string) {
    lead != "" && lead[|lead| - 1] == '[' && '[' !in lead[..|lead| - 1]
  }

  lemma FieldsOpen(lead: string, rest: string)
    requires OpensLast(lead)
    ensures Fields(lead + rest) == [SignedNumber(rest)] + Fields(rest)
  {
    var n := |lead| - 1;
    assert lead + rest == lead[..n] + (['['] + rest);
    FieldsSkip(lead[..n], ['['] + rest);
    assert (['['] + rest)[1..] == rest;
  }

  /** A number printed after an opening bracket. */
  lemma FieldIsRead(lead: string, x: int, rest: string)
    requires OpensLast(lead) && rest != "" && !IsDigit(rest[0])
    ensures Fields(lead + (Decimal(x) + rest)) == [x] + Fields(rest)
  {
    FieldsOpen(lead, Decimal(x) + rest);
    DecimalIsRead(x, rest);
    StartsWithDigit(Abs(x));
    FieldsSkip(Decimal(x), rest);
  }

  lemma Regroup(front: string, lead: string, body: string, rest: string)
    ensures front + lead + body + rest == front + (lead + (body + rest))
  {
  }

  /** The last line from its first number on, grouped to the right. */
  function TableNumbers(size: int, entries: int, index: int): string {
    "],table_size [" + (Decimal(size) + ("], num_entries [" + (Decimal(entries) + ("], table_index ["
    + (Decimal(index) + "] }\n")))))
  }

  lemma TableRegrouped(address: string, size: int, entries: int, index: int)
    ensures TableLine(address, size, entries, index)
         == "module_table: {address [" + (address + TableNumbers(size, entries, index))
  {
    hide Decimal;
    var front := "module_table: {address [" + address;
    var d1, d2, d3 := Decimal(size), Decimal(entries), Decimal(index);
    var front2 := front + "],table_size [" + d1;
    var front3 := front2 + "], num_entries [" + d2;
    Regroup(front3, "], table_index [", d3, "] }\n");
    var rest3 := "], table_index [" + (d3 + "] }\n");
    Regroup(front2, "], num_entries [", d2, rest3);
    var rest2 := "], num_entries [" + (d2 + rest3);
    Regroup(front, "],table_size [", d1, rest2);
    assert front + TableNumbers(size, entries, index)
        == "module_table: {address [" + (address + TableNumbers(size, entries, index));
  }

  lemma TableFields(size: int, entries: int, index: int)
    ensures Fields(TableNumbers(size, entries, index)) == [size, entries, index]
  {
    hide Decimal, Fields;
    FieldsSkip("] }\n", "");
    assert "] }\n" + "" == "] }\n" && Fields("") == [] by { NoFields(); }
    FieldIsRead("], table_index [", index, "] }\n");
    var rest3 := "], table_index [" + (Decimal(index) + "] }\n");
    FieldIsRead("], num_entries [", entries, rest3);
    var rest2 := "], num_entries [" + (Decimal(entries) + rest3);
    FieldIsRead("],table_size [", size, rest2);
  }

  lemma NoFields()
    ensures Fields("") == []
  {
  }

  /**
   The text holds exactly the numbers printed, sign included: the first field is the major number, and the last three
   are size, entries and index, whatever the address looks like.
   */
  lemma ShownIsRead(major: int, address: string, size: int, entries: int, index: int) returns (n: nat)
    ensures var fields := Fields(ProcShow(major, address, size, entries, index));
            && |fields| == n + 3 && n >= 2
            && fields[0] == major && fields[n..] == [size, entries, index]
  {
    hide Decimal, Fields, TableNumbers, TableLine;
    var numbers := TableNumbers(size, entries, index);
    TableFields(size, entries, index);
    var before := FieldsEnd(address, numbers);
    TableRegrouped(address, size, entries, index);
    var table := TableLine(address, size, entries, index);
    FieldsOpen("module_table: {address [", address + numbers);
    var after := "] \n" + table;
    FieldsSkip("] \n", table);
    var lead := CDEV_NAME + " \n" + "major number [";
    FieldIsRead(lead, major, after);
    TextRegrouped(CDEV_NAME + " \n", "major number [", Decimal(major), "] \n", table);
    n := 2 + |before|;
  }

  lemma TextRegrouped(first: string, lead: string, body: string, close: string, table: string)
    ensures first + (lead + body + close) + table == (first + lead) + (body + (close + table))
  {
  }

  /** Two texts are the same only if all four numbers are. */
  lemma ShownApart(
    major: int, address: string, size: int, entries: int, index: int,
    major': int, address': string, size': int, entries': int, index': int)
    requires ProcShow(major, address, size, entries, index) == ProcShow(major', address', size', entries', index')
    ensures major == major' && size == size' && entries == entries' && index == index'
  {
    var n := ShownIsRead(major, address, size, entries, index);
    var n' := ShownIsRead(major', address', size', entries', index');
    var fields := Fields(ProcShow(major, address, size, entries, index));
    assert fields[n] == size && fields[n + 1] == entries && fields[n + 2] == index;
    assert fields[n'] == size' && fields[n' + 1] == entries' && fields[n' + 2] == index';
  }

  lemma FirstDecimals()
    ensures Decimal(254) == "254" && Decimal(256) == "256" && Decimal(0) == "0" && Decimal(-1) == "-1"
  {
    assert Digits(254) == Digits(25) + "4" && Digits(256) == Digits(25) + "6" && Digits(25) == Digits(2) + "5";
  }

  lemma FirstMajorLine()
    ensures MajorLine(254) == "major number [254] \n"
  {
    hide Decimal;
    FirstDecimals();
  }

  /** The text of a module that has just been loaded as device 254. */
  lemma ShownAtFirst(address: string)
    ensures ProcShow(254, address, 256, 0, -1)
         == "lxc-uio-proxy \n" + "major number [254] \n"
            + ("module_table: {address [" + address + "],table_size [" + "256" + "], num_entries [" + "0"
               + "], table_index [" + "-1" + "] }\n")
  {
    hide MajorLine, Decimal;
    FirstDecimals();
    FirstMajorLine();
  }

  // ---------------------------------------------------------------- what the parser makes of a text

  /**
   What is read from any text: the digits that come first on the second line, if they spell an int and errno was clear
   before; whatever stands on the first line, before the digits, and after them.
   */
  lemma SecondLineIsParsed(first: string, lead: string, n: nat, rest: string, errno: int)
    requires '\n' !in first && '\n' !in lead
    requires forall k :: 0 <= k < |lead| ==> !IsDigit(lead[k])
    requires rest != "" && !IsDigit(rest[0])
    ensures MajorOf(first + "\n" + lead + Digits(n) + rest, errno) == if errno == 0 && n <= 0x7FFF_FFFF then n else -1
  {
    var second := lead + Digits(n) + rest;
    var text := first + "\n" + second;
    assert first + "\n" + lead + Digits(n) + rest == text;
    LineEndsAtNewline(first, second);
    assert text[LineLength(text)..] == second;
    StartsWithDigit(n);
    LineBreaksAfter(lead + Digits(n), rest);
    LineLengthBound(second);
    var line := second[..LineLength(second)];
    var tail := line[|lead + Digits(n)|..];
    assert line == lead + (Digits(n) + tail);
    SkipNonDigits(lead, Digits(n) + tail);
    assert line[|lead|..] == Digits(n) + tail;
    DigitsAreRead(n, tail);
    assert tail != "" ==> tail[0] == rest[0];
  }

  lemma {:induction false} LineBreaksAfter(prefix: string, rest: string)
    requires '\n' !in prefix
    ensures LineLength(prefix + rest) == |prefix| + LineLength(rest)
  {
    if prefix == "" {
      assert prefix + rest == rest;
    } else {
      LineBreaksAfter(prefix[1..], rest);
      assert (prefix + rest)[1..] == prefix[1..] + rest;
    }
  }

  /** Without a digit on the second line there is no number. */
  lemma NoDigitIsRefused(first: string, second: string, more: string, errno: int)
    requires '\n' !in first && '\n' !in second
    requires forall k :: 0 <= k < |second| ==> !IsDigit(second[k])
    ensures MajorOf(first + "\n" + second + "\n" + more, errno) == -1
  {
    var rest := second + "\n" + more;
    var text := first + "\n" + rest;
    assert first + "\n" + second + "\n" + more == text;
    LineEndsAtNewline(first, rest);
    assert text[LineLength(text)..] == rest;
    LineEndsAtNewline(second, more);
    var line := rest[..LineLength(rest)];
    assert line == second + "\n";
    SkipNonDigits(line, "");
    assert line + "" == line;
  }

  /** Nor is there one in a text of one line. */
  lemma OneLineIsRefused(text: string, errno: int)
    requires '\n' !in text
    ensures MajorOf(text, errno) == -1
  {
    LineBreaksAfter(text, "");
    assert text + "" == text;
    assert text[LineLength(text)..] == "";
  }

  // ---------------------------------------------------------------- round trip

  /**
   Whatever the other fields are, what the server reads (errno clear) is the absolute value of the number the kernel
   printed: the scan steps over a minus sign. The one that is too large for an int is rejected.
   */
  lemma ParsedIsAbsolute(major: int, address: string, size: int, entries: int, index: int)
    requires INT_MIN <= major <= INT_MAX
    ensures MajorOf(ProcShow(major, address, size, entries, index), 0) == if major == INT_MIN then -1 else Abs(major)
  {
    hide Digits, TableLine, MajorOf, Decimal;
    var sign := if major < 0 then "-" else "";
    var digits, table := Digits(Abs(major)), TableLine(address, size, entries, index);
    SecondLineIsParsed(CDEV_NAME + " ", "major number [" + sign, Abs(major), "] \n" + table, 0);
    SignAndDigits(major);
    SignRegrouped(CDEV_NAME, "major number [", sign, digits, "] \n", table);
  }

  lemma SignAndDigits(x: int)
    ensures Decimal(x) == (if x < 0 then "-" else "") + Digits(Abs(x))
  {
    assert "" + Digits(Abs(x)) == Digits(Abs(x));
  }

  lemma SignRegrouped(name: string, lead: string, sign: string, digits: string, close: string, table: string)
    ensures (name + " ") + "\n" + (lead + sign) + digits + (close + table)
         == name + " \n" + (lead + (sign + digits) + close) + table
  {
  }

  /** The hand-over gives back the number exactly when it is not negative. */
  lemma RoundTrip(major: int, address: string, size: int, entries: int, index: int)
    requires INT_MIN <= major <= INT_MAX
    ensures MajorOf(ProcShow(major, address, size, entries, index), 0) == major <==> major >= 0
  {
    ParsedIsAbsolute(major, address, size, entries, index);
  }
}
