/** src/json.c: documents as typed entries, written by j_out and read by j_val. */
module Json {
  import opened Bits
  import opened Decimal
  import opened CText

  const DEPTH: nat := 2000

  datatype Ty = TStr | TNum | TBool | TNull | TObj | TArr

  /** struct ent: a key, and a value that is text or holds entries of its own. */
  datatype Ent = Ent(k: string, ty: Ty, s: string, els: seq<Ent>)

  function Fresh(k: string): Ent { Ent(k, TStr, "", []) }

  // ---- writing ----

  function Hex(d: nat): char
    requires d < 16
  {
    if d < 10 then d as char + '0' else (d - 10) as char + 'a'
  }

  /** One byte of a string, escaped where JSON needs it. */
  function Esc1(c: char): string {
    if c == '"' || c == '\\' then ['\\', c]
    else if c == '\n' then "\\n"
    else if c == '\t' then "\\t"
    else if c == '\r' then "\\r"
    else if c < 0x20 as char then "\\u00" + [Hex(c as nat / 16), Hex(c as nat % 16)]
    else [c]
  }

  function Esc(s: string): string {
    if s == "" then "" else Esc1(s[0]) + Esc(s[1..])
  }

  function Quote(s: string): string { "\"" + Esc(s) + "\"" }

  /** atol on a string of digits, in 64 bits. */
  function Atol(s: string): int {
    if s != "" && forall i :: 0 <= i < |s| ==> Digit(s[i]) then
      if Value(s) < 0x7fff_ffff_ffff_ffff then Value(s) else 0x7fff_ffff_ffff_ffff
    else -1
  }

  /** j_isarr: what the type says, or else whether the keys count up from 0. */
  predicate IsArr(m: seq<Ent>, ty: Ty) {
    ty == TArr || (ty != TObj && m != [] && forall i :: 0 <= i < |m| ==> Atol(m[i].k) == i)
  }

  function Indent(d: nat): string {
    if d == 0 then "" else "  " + Indent(d - 1)
  }

  function Scalar(e: Ent): string {
    match e.ty
    case TNum => if e.s != "" then e.s else "null"
    case TBool => if e.s != "" then e.s else "null"
    case TNull => if e.s != "" then e.s else "null"
    case TArr => "[]"
    case TObj => "{}"
    case TStr => Quote(e.s)
  }

  function Open(arr: bool): string { if arr then "[" else "{" }
  function Close(arr: bool): string { if arr then "]" else "}" }

  /** A line break and indentation, when asked for. */
  function Break(pretty: bool, d: nat): string {
    if pretty then "\n" + Indent(d) else ""
  }

  function KeyText(k: string, arr: bool, pretty: bool): string {
    if arr then "" else Quote(k) + ":" + (if pretty then " " else "")
  }

  function Emit(e: Ent, pretty: bool, d: nat): string
    decreases e, 1
  {
    if e.els == [] then Scalar(e)
    else
      var arr := IsArr(e.els, e.ty);
      Open(arr) + (EmitAll(e.els, arr, pretty, d) + (Break(pretty, d) + Close(arr)))
  }

  function EmitAll(m: seq<Ent>, arr: bool, pretty: bool, d: nat): string
    decreases m, 0
  {
    if m == [] then ""
    else
      Break(pretty, d + 1) + (KeyText(m[0].k, arr, pretty) + (Emit(m[0], pretty, d + 1) +
      ((if |m| > 1 then "," else "") + EmitAll(m[1..], arr, pretty, d))))
  }

  // ---- reading ----

  datatype St = St(p: string, bad: bool, dep: nat)

  predicate Blank(c: char) { c == ' ' || c == '\t' || c == '\n' || c == '\r' }

  function Ws(p: string): (r: string)
    ensures |r| <= |p|
  {
    if p != "" && Blank(p[0]) then Ws(p[1..]) else p
  }

  function Skip(st: St): St { st.(p := Ws(st.p)) }

  /** j_hex4: four hexadecimal digits. */
  function Hex4(p: string): Option<nat> {
    if |p| < 4 || HexVal(p[0]).None? || HexVal(p[1]).None? || HexVal(p[2]).None? || HexVal(p[3]).None? then None
    else Some(4096 * HexVal(p[0]).value + 256 * HexVal(p[1]).value + 16 * HexVal(p[2]).value + HexVal(p[3]).value)
  }

  predicate HighHalf(u: nat) { 0xd800 <= u <= 0xdbff }
  predicate LowHalf(u: nat) { 0xdc00 <= u <= 0xdfff }

  /** After `\u`: the character it names, and what is left; a pair of surrogates names one. */
  function Unicode(p: string): (r: Option<(string, string)>)
    ensures r.Some? ==> |r.value.1| < |p|
  {
    match Hex4(p)
    case None => None
    case Some(u) =>
      var q := p[4..];
      if HighHalf(u) && Ch(q, 0) == '\\' && Ch(q, 1) == 'u' && Hex4(q[2..]).Some? && LowHalf(Hex4(q[2..]).value) then
        Some((Utf8(0x1_0000 + (u - 0xd800) * 1024 + (Hex4(q[2..]).value - 0xdc00)), q[6..]))
      else Some((Utf8(if 0xd800 <= u <= 0xdfff || u == 0 then 0xfffd else u), q))
  }

  /** The inside of a string, added to `o`, up to its closing quote or the end. */
  function Chars(p: string, o: string, bad: bool): (r: (string, string, bool))
    ensures |r.1| <= |p|
    decreases |p|
  {
    if p == "" || p[0] == '"' then (o, p, bad)
    else if p[0] != '\\' then Chars(p[1..], o + [p[0]], bad)
    else
      var c := Ch(p, 1);
      if |p| == 1 then (o, "", bad)
      else if c == 'n' then Chars(p[2..], o + "\n", bad)
      else if c == 't' then Chars(p[2..], o + "\t", bad)
      else if c == 'r' then Chars(p[2..], o + "\r", bad)
      else if c == 'b' then Chars(p[2..], o + [8 as char], bad)
      else if c == 'f' then Chars(p[2..], o + [12 as char], bad)
      else if c == 'u' then
        match Unicode(p[2..])
        case None => Chars(p[2..], o, true)
        case Some((u, q)) => Chars(q, o + u, bad)
      else Chars(p[2..], o + [c], bad)
  }

  /** j_str. */
  function Str(st: St): (r: (St, string))
    ensures |r.0.p| <= |st.p| && (Ch(st.p, 0) == '"' ==> |r.0.p| < |st.p|)
  {
    if Ch(st.p, 0) != '"' then (st.(bad := true), "")
    else
      var (o, q, bad) := Chars(st.p[1..], "", st.bad);
      if Ch(q, 0) == '"' then (st.(p := q[1..], bad := bad), o) else (st.(p := q, bad := true), o)
  }

  /** mp_find, as a place in the list. */
  function Find(m: seq<Ent>, k: string): (r: Option<nat>)
    ensures r.Some? ==> r.value < |m|
  {
    if m == [] then None
    else if m[0].k == k then Some(0)
    else
      match Find(m[1..], k)
      case None => None
      case Some(i) => Some(i + 1)
  }

  predicate Ends(c: char) { Blank(c) || c == ',' || c == '}' || c == ']' }

  /** How many characters come before the next delimiter. */
  function Run(p: string): (n: nat)
    ensures n <= |p|
  {
    if p == "" || Ends(p[0]) then 0 else 1 + Run(p[1..])
  }

  /** A literal: true, false, null or a number, by how it begins. */
  function Literal(st: St, e: Ent): (r: (St, Ent))
    ensures |r.0.p| <= |st.p|
  {
    var n := Run(st.p);
    var s := st.p[..n];
    var t := st.(p := st.p[n..]);
    if s == "true" || s == "false" then (t, e.(s := s, ty := TBool))
    else if s == "null" then (t, e.(s := s, ty := TNull))
    else if Ch(s, 0) == '-' || Digit(Ch(s, 0)) then (t, e.(s := s, ty := TNum))
    else (t.(bad := true), e.(s := s))
  }

  function Closer(arr: bool): char { if arr then ']' else '}' }

  /** j_val: the value at the cursor, put into entry `e`. */
  function Parse(s: St, e: Ent): (r: (St, Ent))
    ensures |r.0.p| <= |s.p|
    decreases |s.p|, 0
  {
    var st := Skip(s);
    var c := Ch(st.p, 0);
    if c == '{' || c == '[' then
      if st.dep + 1 > DEPTH then (st.(bad := true), e)
      else
        var arr := c == '[';
        var st1 := Skip(st.(p := st.p[1..], dep := st.dep + 1));
        var e' := e.(ty := if arr then TArr else TObj);
        if Ch(st1.p, 0) == Closer(arr) then (st1.(p := st1.p[1..], dep := st.dep), e')
        else
          var (t, m) := Elems(st1, arr, e'.els, 0);
          (t.(dep := st.dep), e'.(els := m))
    else if c == '"' then
      var (t, v) := Str(st);
      (t, e.(ty := TStr, s := v))
    else Literal(st, e)
  }

  /** The key of the next element: its number in an array, else a string and a colon. */
  function Key(s: St, arr: bool, n: nat): (r: (St, string))
    ensures |r.0.p| <= |s.p|
  {
    var st := Skip(s);
    if arr then (st, Dec(n))
    else
      var (t, k) := Str(st);
      var u := Skip(t);
      if Ch(u.p, 0) == ':' then (u.(p := u.p[1..]), k) else (u.(bad := true), k)
  }

  /** The elements of a container, added to the entries `m`, past its closing bracket. */
  function Elems(s: St, arr: bool, m: seq<Ent>, n: nat): (r: (St, seq<Ent>))
    ensures |r.0.p| <= |s.p|
    decreases |s.p|, 1
  {
    var (st, k) := Key(s, arr, n);
    var m' := if Find(m, k).None? then m + [Fresh(k)] else m;
    var i := if Find(m, k).None? then |m| else Find(m, k).value;
    var (t, e) := Parse(st, m'[i]);
    var done := m'[i := e];
    var u := Skip(t);
    if Ch(u.p, 0) == ',' then Elems(u.(p := u.p[1..]), arr, done, n + 1)
    else if Ch(u.p, 0) == Closer(arr) then (u.(p := u.p[1..]), done)
    else (u.(bad := true), done)
  }

  /** A whole document: None if it is malformed. */
  function Document(p: string): Option<Ent> {
    var (t, e) := Parse(St(p, false, 0), Fresh(""));
    if t.bad || Ws(t.p) != "" then None else Some(e)
  }
}
