/** The few JavaScript semantics the handlers depend on: truthiness, the `||`
    operator, and `String.prototype.trim`. */
module Js {
  import opened Wrappers

  /** A request-body field that the handler compares with `!== undefined`:
      absent, explicitly `null`, or a value. */
  datatype Field<T> = Undefined | Null | Given(value: T)

  /** A nullable column after `if (f !== undefined) data.column = f`. */
  function Assign<T>(f: Field<T>, current: Option<T>): Option<T> {
    match f
    case Undefined => current
    case Null => None
    case Given(v) => Some(v)
  }

  /** The JavaScript values an assignee field can hold in this model. */
  datatype JsValue =
    | JUndefined
    | JNull
    | JBool(b: bool)
    | JNum(n: int)
    | JStr(s: string)
    | JList(ids: seq<int>)

  /** JavaScript truthiness of a value. */
  predicate Truthy(v: JsValue) {
    match v
    case JUndefined => false
    case JNull => false
    case JBool(b) => b
    case JNum(n) => n != 0
    case JStr(s) => s != ""
    case JList(_) => true
  }

  /** `a || b` */
  function Or(a: JsValue, b: JsValue): JsValue {
    if Truthy(a) then a else b
  }

  /** Truthiness of a nullable string: null, undefined and "" are falsy. */
  predicate TruthyText(o: Option<string>) {
    o.Some? && o.value != ""
  }

  /** Truthiness of a nullable number: null, undefined and 0 are falsy. */
  predicate TruthyId(o: Option<int>) {
    o.Some? && o.value != 0
  }

  /** `a || b` on nullable numbers. */
  function OrId(a: Option<int>, b: Option<int>): Option<int> {
    if TruthyId(a) then a else b
  }

  /** `s || ''` on a nullable string. */
  function OrEmpty(o: Option<string>): string {
    if o.Some? then o.value else ""
  }

  /** A nullable text as a template literal renders it: null becomes "null". */
  function Interpolate(o: Option<string>): string {
    if o.Some? then o.value else "null"
  }

  /** The characters ECMAScript counts as WhiteSpace or LineTerminator, which
      `trim` and `parseInt` skip. */
  predicate IsJsSpace(c: char) {
    c == '\t' || c == '\n' || c == '\U{B}' || c == '\U{C}' || c == '\r' || c == ' '
    || c == '\U{A0}' || c == '\U{1680}' || ('\U{2000}' <= c <= '\U{200A}')
    || c == '\U{2028}' || c == '\U{2029}' || c == '\U{202F}' || c == '\U{205F}'
    || c == '\U{3000}' || c == '\U{FEFF}'
  }

  function TrimStart(s: string): (r: string)
    ensures |r| <= |s| && r == s[|s| - |r|..]
    ensures r == [] || !IsJsSpace(r[0])
    ensures forall i :: 0 <= i < |s| - |r| ==> IsJsSpace(s[i])
  {
    if s != [] && IsJsSpace(s[0]) then TrimStart(s[1..]) else s
  }

  function TrimEnd(s: string): (r: string)
    ensures |r| <= |s| && r == s[..|r|]
    ensures r == [] || !IsJsSpace(r[|r| - 1])
    ensures forall i :: |r| <= i < |s| ==> IsJsSpace(s[i])
  {
    if s != [] && IsJsSpace(s[|s| - 1]) then TrimEnd(s[..|s| - 1]) else s
  }

  /** `s.trim()` */
  function Trim(s: string): (r: string)
    ensures |r| <= |s|
    ensures r == [] || (!IsJsSpace(r[0]) && !IsJsSpace(r[|r| - 1]))
  {
    TrimEnd(TrimStart(s))
  }

  /** Trimming leaves a string without leading or trailing white space as it is. */
  lemma TrimKeepsClean(s: string)
    requires s == [] || (!IsJsSpace(s[0]) && !IsJsSpace(s[|s| - 1]))
    ensures Trim(s) == s
  {
  }

  /** A string made of white space alone trims to the empty string. */
  lemma {:induction false} TrimAllSpace(s: string)
    requires forall i :: 0 <= i < |s| ==> IsJsSpace(s[i])
    ensures Trim(s) == ""
  {
  }
}
