// Option tables, shared by the two getopt engines.
module OptionTable {

  datatype Option<+T> = None | Some(value: T)

  datatype HasArg = NoArgument | RequiredArgument | OptionalArgument

  // A row of a long-option table.  flag is the cell that receives val, or
  // None when val is the return value.
  datatype LongOption = LongOption(name: string, hasArg: HasArg, flag: Option<nat>, val: int)

  // Two rows that a caller cannot tell apart by what getopt_long does.
  predicate SameAction(a: LongOption, b: LongOption) {
    a.hasArg == b.hasArg && a.flag == b.flag && a.val == b.val
  }

  function ValueOrZero(o: LongOption): int {
    if o.flag.None? then o.val else 0
  }

  // The first position of c in s, or |s|.
  function IndexOf(s: string, c: char): (i: nat)
    ensures i <= |s|
    ensures i < |s| ==> s[i] == c
    ensures forall j :: 0 <= j < i ==> s[j] != c
    ensures i < |s| <==> c in s
  {
    if s == [] || s[0] == c then 0 else 1 + IndexOf(s[1..], c)
  }

  // The character at i, or NUL at the end of the string.
  function CharAt(s: string, i: nat): char {
    if i < |s| then s[i] else '\0'
  }
}
