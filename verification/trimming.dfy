/**
 The result-set wrapper that trims strings read from CHAR columns.

 `trim` removes trailing U+0020 characters only. The handler learns once,
 from the result set's metadata, which columns are CHAR columns (by 1-based
 position and by upper-cased name). It then trims a String returned by
 `getObject` or `getString` exactly when the addressed column is one of them.

 The metadata is given as a sequence of (type code, name) pairs, column 1
 first. A call is given as its method name, its parameters (each with the
 declared parameter type and the argument passed) and the value the wrapped
 result set returned. Upper-casing is ASCII upper-casing.
 */
module Trimming {
  import opened Optional

  // ---------------------------------------------------------------------
  // trim

  /** `s` without its trailing spaces: the longest prefix of `s` that does
      not end in a space, where everything cut off is a space. */
  function Trimmed(s: string): (r: string)
    ensures r <= s
    ensures |r| == 0 || r[|r| - 1] != ' '
    ensures forall i :: |r| <= i < |s| ==> s[i] == ' '
    decreases |s|
  {
    if |s| > 0 && s[|s| - 1] == ' ' then Trimmed(s[..|s| - 1]) else s
  }

  /** Only one string meets `Trimmed`'s contract. */
  lemma TrimmedUnique(s: string, r: string)
    requires r <= s
    requires |r| == 0 || r[|r| - 1] != ' '
    requires forall i :: |r| <= i < |s| ==> s[i] == ' '
    ensures r == Trimmed(s)
  {
  }

  /** Shortens a length from the end of the string while the last kept
      character is a space; returns the same string when nothing was cut. */
  method Trim(s: string) returns (r: string)
    ensures r <= s
    ensures |r| == 0 || r[|r| - 1] != ' '
    ensures forall i :: |r| <= i < |s| ==> s[i] == ' '
    ensures r == Trimmed(s)
  {
    var length := |s|;
    var trimmedLength := length;
    while trimmedLength > 0 && s[trimmedLength - 1] == ' '
      invariant 0 <= trimmedLength <= length
      invariant forall i :: trimmedLength <= i < length ==> s[i] == ' '
    {
      trimmedLength := trimmedLength - 1;
    }
    r := if trimmedLength == length then s else s[..trimmedLength];
    TrimmedUnique(s, r);
  }

  /** A string is left unchanged exactly when it does not end in a space. */
  lemma TrimmedUnchangedIffNoTrailingSpace(s: string)
    ensures Trimmed(s) == s <==> (|s| == 0 || s[|s| - 1] != ' ')
  {
  }

  /** Trimming twice is trimming once. */
  lemma TrimmedIdempotent(s: string)
    ensures Trimmed(Trimmed(s)) == Trimmed(s)
  {
  }

  /** Everything up to the last character that is not a space is kept: leading
      spaces, inner spaces and trailing tabs or other whitespace included. */
  lemma TrimmedKeepsThroughLastNonSpace(s: string, k: nat)
    requires k < |s| && s[k] != ' '
    ensures |Trimmed(s)| > k
    ensures Trimmed(s)[..k + 1] == s[..k + 1]
  {
  }

  /** A string of spaces only trims to the empty string. */
  lemma AllSpacesTrimToEmpty(s: string)
    requires forall i :: 0 <= i < |s| ==> s[i] == ' '
    ensures Trimmed(s) == ""
  {
  }

  // ---------------------------------------------------------------------
  // CHAR column classification

  /** The type code of CHAR columns in JDBC metadata (java.sql.Types.CHAR). */
  const CHAR: int := 1

  datatype ColumnMeta = ColumnMeta(columnType: int, name: string)

  /** What the handler remembers about the columns: the upper-cased names of
      the CHAR columns, and for column `i` (1-based) whether it is one, at
      position `i - 1`. */
  datatype CharColumns = CharColumns(names: set<string>, isChar: seq<bool>)

  function UpperChar(c: char): char
  {
    if 'a' <= c <= 'z' then (c as int - 'a' as int + 'A' as int) as char else c
  }

  function Upper(s: string): string
  {
    seq(|s|, i requires 0 <= i < |s| => UpperChar(s[i]))
  }

  /** `c` is the classification of the columns described by `metadata`. */
  ghost predicate Classifies(c: CharColumns, metadata: seq<ColumnMeta>)
  {
    && |c.isChar| == |metadata|
    && (forall i :: 0 <= i < |metadata| ==> (c.isChar[i] <==> metadata[i].columnType == CHAR))
    && (forall n :: n in c.names <==>
          exists i :: 0 <= i < |metadata| && metadata[i].columnType == CHAR && Upper(metadata[i].name) == n)
  }

  /** Returns the classification already held in `cache` if there is one, and
      otherwise builds it from `metadata`, visiting columns 1 to the column
      count. */
  method FetchCharColumns(cache: Option<CharColumns>, metadata: seq<ColumnMeta>) returns (c: CharColumns)
    ensures cache.Some? ==> c == cache.value
    ensures cache.None? ==> Classifies(c, metadata)
  {
    if cache.Some? {
      return cache.value;
    }
    var columnCount := |metadata|;
    var names: set<string> := {};
    var isChar := seq(columnCount, _ => false);
    var i := 1;
    while i <= columnCount
      invariant 1 <= i <= columnCount + 1
      invariant |isChar| == columnCount
      invariant forall k :: 0 <= k < columnCount ==> (isChar[k] <==> k < i - 1 && metadata[k].columnType == CHAR)
      invariant forall n :: n in names <==>
        exists k :: 0 <= k < i - 1 && metadata[k].columnType == CHAR && Upper(metadata[k].name) == n
    {
      if metadata[i - 1].columnType == CHAR {
        names := names + {Upper(metadata[i - 1].name)};
        isChar := isChar[i - 1 := true];
      }
      i := i + 1;
    }
    c := CharColumns(names, isChar);
  }

  /** Lookup by 1-based column index; `None` stands for the
      ArrayIndexOutOfBoundsException an index outside 1..column count raises. */
  function IsCharColumnAt(c: CharColumns, columnIndex: int): (r: Option<bool>)
    ensures r.Some? <==> 1 <= columnIndex <= |c.isChar|
  {
    if 1 <= columnIndex <= |c.isChar| then Some(c.isChar[columnIndex - 1]) else None
  }

  /** Every stored name is already upper-cased, as the names the handler
      stores always are. */
  ghost predicate UpperNames(c: CharColumns)
  {
    forall n :: n in c.names ==> Upper(n) == n
  }

  /** Lookup by column name, upper-cased first: when the stored names are
      upper-cased, a name is CHAR exactly when some stored name equals it up
      to case. */
  function IsCharColumnNamed(c: CharColumns, columnName: string): (r: bool)
    ensures UpperNames(c) ==> (r <==> exists n :: n in c.names && Upper(n) == Upper(columnName))
  {
    UpperIdempotent(columnName);
    Upper(columnName) in c.names
  }

  /** A classification built from metadata stores upper-cased names only. */
  lemma ClassifiesUpperNames(c: CharColumns, metadata: seq<ColumnMeta>)
    requires Classifies(c, metadata)
    ensures UpperNames(c)
  {
  }

  /** By index, a column is reported CHAR exactly when its metadata type is
      CHAR, and every index outside 1..column count is an error. */
  lemma LookupAtMatchesMetadata(c: CharColumns, metadata: seq<ColumnMeta>, columnIndex: int)
    requires Classifies(c, metadata)
    ensures IsCharColumnAt(c, columnIndex)
      == if 1 <= columnIndex <= |metadata| then Some(metadata[columnIndex - 1].columnType == CHAR) else None
  {
  }

  /** By name, a column is reported CHAR exactly when some CHAR column has the
      same name up to case. */
  lemma LookupNamedMatchesMetadata(c: CharColumns, metadata: seq<ColumnMeta>, columnName: string)
    requires Classifies(c, metadata)
    ensures IsCharColumnNamed(c, columnName) <==>
      exists i :: 0 <= i < |metadata| && metadata[i].columnType == CHAR && Upper(metadata[i].name) == Upper(columnName)
  {
  }

  lemma UpperIdempotent(s: string)
    ensures Upper(Upper(s)) == Upper(s)
  {
  }

  /** Names that differ only in letter case look up alike; in particular a
      name and its upper-cased form do. */
  lemma LookupNamedIgnoresCase(c: CharColumns, a: string, b: string)
    requires Upper(a) == Upper(b)
    ensures IsCharColumnNamed(c, a) == IsCharColumnNamed(c, b)
    ensures IsCharColumnNamed(c, a) == IsCharColumnNamed(c, Upper(a))
  {
    UpperIdempotent(a);
  }

  // ---------------------------------------------------------------------
  // The trim / no-trim / error decision of `invoke`

  /** A value returned by the wrapped result set. */
  datatype Value = StringValue(s: string) | OtherValue(id: int)

  /** A declared parameter together with the argument passed for it. */
  datatype Param = IntParam(index: int) | StringParam(name: string) | OtherParam

  datatype Call = Call(methodName: string, params: seq<Param>, result: Value)

  datatype Outcome =
    | Returned(value: Value)     // returned to the caller as computed here
    | Delegated(value: Value)    // handed to the proxy-wrapping branch, which is not modelled
    | IllegalState               // IllegalStateException: unexpected signature
    | IndexOutOfBounds           // ArrayIndexOutOfBoundsException from the index lookup

  /** A String came back from `getObject` or `getString`. */
  predicate IsStringRead(call: Call)
  {
    call.result.StringValue? && (call.methodName == "getObject" || call.methodName == "getString")
  }

  /** The value for a String `s` read from the column the first parameter
      addresses. */
  function ReadColumn(c: CharColumns, first: Param, s: string): (r: Outcome)
    ensures r == IllegalState <==> first.OtherParam?
    ensures r == IndexOutOfBounds <==> first.IntParam? && !(1 <= first.index <= |c.isChar|)
    ensures !r.Delegated?
    ensures r.Returned? ==> r.value == StringValue(s) || r.value == StringValue(Trimmed(s))
  {
    match first
    case IntParam(columnIndex) =>
      (match IsCharColumnAt(c, columnIndex)
       case None => IndexOutOfBounds
       case Some(isChar) => Returned(StringValue(if isChar then Trimmed(s) else s)))
    case StringParam(columnName) =>
      Returned(StringValue(if IsCharColumnNamed(c, columnName) then Trimmed(s) else s))
    case OtherParam => IllegalState
  }

  /** The decision as the handler is written: a String read through a method
      with at most one parameter is rejected. */
  function InvokeAsWritten(call: Call, c: CharColumns): (r: Outcome)
    ensures !IsStringRead(call) ==> r == Delegated(call.result)
    ensures IsStringRead(call) && |call.params| <= 1 ==> r == IllegalState
  {
    if !IsStringRead(call) then Delegated(call.result)
    else if |call.params| <= 1 then IllegalState
    else ReadColumn(c, call.params[0], call.result.s)
  }

  /** The decision with the parameter-count check rejecting only reads with no
      parameter at all, so that `getString(int)`, `getString(String)`,
      `getObject(int)` and `getObject(String)` reach the CHAR test. */
  function Invoke(call: Call, c: CharColumns): (r: Outcome)
    ensures !IsStringRead(call) ==> r == Delegated(call.result)
    ensures IsStringRead(call) ==> (r == IllegalState <==> |call.params| == 0 || call.params[0].OtherParam?)
    ensures r.Returned? ==>
      IsStringRead(call) && (r.value == call.result || r.value == StringValue(Trimmed(call.result.s)))
    ensures r == IndexOutOfBounds ==> IsStringRead(call) && call.params[0].IntParam?
  {
    if !IsStringRead(call) then Delegated(call.result)
    else if |call.params| == 0 then IllegalState
    else ReadColumn(c, call.params[0], call.result.s)
  }

  /** On a classification built from the metadata, a String read by index is
      trimmed exactly when that column's type is CHAR (an index outside
      1..column count is an error), and a String read by name exactly when some
      CHAR column has that name up to case. */
  lemma ReadColumnMatchesMetadata(c: CharColumns, metadata: seq<ColumnMeta>, first: Param, s: string)
    requires Classifies(c, metadata)
    ensures first.IntParam? ==>
      ReadColumn(c, first, s)
        == if 1 <= first.index <= |metadata|
           then Returned(StringValue(if metadata[first.index - 1].columnType == CHAR then Trimmed(s) else s))
           else IndexOutOfBounds
    ensures first.StringParam? ==>
      ReadColumn(c, first, s)
        == Returned(StringValue(
             if exists i :: 0 <= i < |metadata| && metadata[i].columnType == CHAR && Upper(metadata[i].name) == Upper(first.name)
             then Trimmed(s) else s))
  {
  }

  /** A String read by column index is trimmed exactly when the metadata says
      the column is CHAR, and an index outside 1..column count is an error. */
  lemma InvokeByIndex(call: Call, c: CharColumns, metadata: seq<ColumnMeta>, columnIndex: int)
    requires Classifies(c, metadata)
    requires IsStringRead(call) && |call.params| >= 1 && call.params[0] == IntParam(columnIndex)
    ensures var s := call.result.s;
      Invoke(call, c) == if 1 <= columnIndex <= |metadata|
        then Returned(StringValue(if metadata[columnIndex - 1].columnType == CHAR then Trimmed(s) else s))
        else IndexOutOfBounds
  {
  }

  /** A String read by column name is trimmed exactly when some CHAR column
      has that name up to case. */
  lemma InvokeByName(call: Call, c: CharColumns, metadata: seq<ColumnMeta>, columnName: string)
    requires Classifies(c, metadata)
    requires IsStringRead(call) && |call.params| >= 1 && call.params[0] == StringParam(columnName)
    ensures var s := call.result.s;
      Invoke(call, c) == Returned(StringValue(
        if exists i :: 0 <= i < |metadata| && metadata[i].columnType == CHAR && Upper(metadata[i].name) == Upper(columnName)
        then Trimmed(s) else s))
  {
  }

  /** The two decisions differ only on one-parameter String reads. */
  lemma AsWrittenAgreesExceptOneParameter(call: Call, c: CharColumns)
    requires !(IsStringRead(call) && |call.params| == 1)
    ensures InvokeAsWritten(call, c) == Invoke(call, c)
  {
  }

  /** `getString(1)` on a CHAR column holding `"AB  "`: as written the handler
      throws IllegalStateException; the corrected decision returns `"AB"`. */
  lemma AsWrittenRejectsGetStringByIndex()
    ensures var c := CharColumns({"CODE"}, [true]);
      var call := Call("getString", [IntParam(1)], StringValue("AB  "));
      && Classifies(c, [ColumnMeta(CHAR, "code")])
      && InvokeAsWritten(call, c) == IllegalState
      && Invoke(call, c) == Returned(StringValue("AB"))
  {
    var c := CharColumns({"CODE"}, [true]);
    var md := [ColumnMeta(CHAR, "code")];
    assert Upper("code") == "CODE";
    assert Trimmed("AB ") == Trimmed("AB");
    assert Trimmed("AB  ") == "AB";
    forall n
      ensures n in c.names <==> exists i :: 0 <= i < |md| && md[i].columnType == CHAR && Upper(md[i].name) == n
    {
      if n in c.names {
        assert md[0].columnType == CHAR && Upper(md[0].name) == n;
      }
    }
  }
}
