/**
 * Shared vocabulary of the model: identifiers, timestamps, the string setters
 * (`trim`, `lowercase`) and the `required` validator that the document schemas
 * declare, and the reply shape of the HTTP handlers.
 */
module Schema {

  /** Document ids (ObjectId) are opaque; natural numbers stand for them. */
  type UserId = nat
  type PostId = nat

  /** Dates are instants; a natural number of milliseconds stands for them. */
  type Timestamp = nat

  datatype Option<+T> = None | Some(value: T)

  /**
   * What a handler sends back. `Ok` covers the 200 and 201 replies, `NotFound`
   * the 404 replies, `BadRequest` the 400 replies (whose message the caller
   * sees), and `ServerError` the 500 replies produced by a thrown error.
   */
  datatype Reply<+T> = Ok(value: T) | NotFound | BadRequest(message: string) | ServerError

  /** No id occurs twice in an id list. */
  predicate NoRepeats(ids: seq<nat>)
  {
    forall i, j :: 0 <= i < j < |ids| ==> ids[i] != ids[j]
  }

  /**
   * The characters JavaScript's String.prototype.trim removes: the WhiteSpace
   * code points (tab, vertical tab, form feed, space, no-break space, the byte
   * order mark and every space separator) and the LineTerminator code points.
   */
  predicate IsJsSpace(c: char)
  {
    || c == '\t' || c == '\n' || c == '\U{000B}' || c == '\U{000C}' || c == '\r' || c == ' '
    || c == '\U{00A0}' || c == '\U{1680}' || ('\U{2000}' <= c <= '\U{200A}')
    || c == '\U{2028}' || c == '\U{2029}' || c == '\U{202F}' || c == '\U{205F}'
    || c == '\U{3000}' || c == '\U{FEFF}'
  }

  /** `s` with its leading white space removed. */
  function TrimStart(s: string): (r: string)
    ensures |r| <= |s| && r == s[|s| - |r|..]
    ensures r == [] || !IsJsSpace(r[0])
    ensures forall i {:trigger IsJsSpace(s[i])} :: 0 <= i < |s| - |r| ==> IsJsSpace(s[i])
  {
    if s != [] && IsJsSpace(s[0]) then TrimStart(s[1..]) else s
  }

  /** `s` with its trailing white space removed. */
  function TrimEnd(s: string): (r: string)
    ensures |r| <= |s| && r == s[..|r|]
    ensures r == [] || !IsJsSpace(r[|r| - 1])
    ensures forall i {:trigger IsJsSpace(s[i])} :: |r| <= i < |s| ==> IsJsSpace(s[i])
  {
    if s != [] && IsJsSpace(s[|s| - 1]) then TrimEnd(s[..|s| - 1]) else s
  }

  /** No white space at either end. */
  predicate IsTrimmed(s: string)
  {
    s == [] || (!IsJsSpace(s[0]) && !IsJsSpace(s[|s| - 1]))
  }

  /**
   * The `trim: true` setter: `s` without white space at either end. The result
   * is the contiguous part of `s` left once the white space at both ends is cut.
   */
  function Trim(s: string): (r: string)
    ensures IsTrimmed(r)
    ensures var k := |s| - |TrimStart(s)|;
      && k + |r| <= |s|
      && (forall i :: 0 <= i < |r| ==> r[i] == s[k + i])
      && (forall i :: 0 <= i < k ==> IsJsSpace(s[i]))
      && (forall i :: k + |r| <= i < |s| ==> IsJsSpace(s[i]))
  {
    var t := TrimStart(s);
    var r := TrimEnd(t);
    TrimmedPart(s, t, r);
    r
  }

  /**
   * A prefix `r` of a suffix `t` of `s`, where only white space of `t` lies
   * past `r`, is a contiguous part of `s` followed by white space only; it has
   * no white space at either end when `t` does not start with white space and
   * `r` does not end with it.
   */
  lemma TrimmedPart(s: string, t: string, r: string)
    requires |t| <= |s| && t == s[|s| - |t|..]
    requires t == [] || !IsJsSpace(t[0])
    requires |r| <= |t| && r == t[..|r|]
    requires r == [] || !IsJsSpace(r[|r| - 1])
    requires forall i :: |r| <= i < |t| ==> IsJsSpace(t[i])
    ensures IsTrimmed(r)
    ensures forall i :: 0 <= i < |r| ==> r[i] == s[|s| - |t| + i]
    ensures forall i :: |s| - |t| + |r| <= i < |s| ==> IsJsSpace(s[i])
  {
    var k := |s| - |t|;
    assert r != [] ==> r[0] == t[0];
    forall i | 0 <= i < |r| ensures r[i] == s[k + i] {
      assert r[i] == t[i];
    }
    forall i | k + |r| <= i < |s| ensures IsJsSpace(s[i]) {
      assert s[i] == t[i - k];
    }
  }

  lemma TrimKeepsTrimmed(s: string)
    requires IsTrimmed(s)
    ensures Trim(s) == s
  {
  }

  /** Trimming twice is trimming once. */
  lemma TrimIdempotent(s: string)
    ensures Trim(Trim(s)) == Trim(s)
  {
    TrimKeepsTrimmed(Trim(s));
  }

  predicate IsAsciiUpper(c: char)
  {
    'A' <= c <= 'Z'
  }

  /** Lower-casing of one character; only the ASCII letters are mapped. */
  function LowerChar(c: char): (d: char)
    ensures !IsAsciiUpper(d)
    ensures IsJsSpace(d) == IsJsSpace(c)
    ensures IsAsciiUpper(c) ==> 'a' <= d <= 'z' && d as int - 'a' as int == c as int - 'A' as int
    ensures !IsAsciiUpper(c) ==> d == c
  {
    if IsAsciiUpper(c) then (c as int + 32) as char else c
  }

  /** The `lowercase: true` setter. */
  function Lower(s: string): (r: string)
    ensures |r| == |s|
    ensures forall i :: 0 <= i < |s| ==> r[i] == LowerChar(s[i])
  {
    if s == [] then [] else [LowerChar(s[0])] + Lower(s[1..])
  }

  predicate HasNoUpper(s: string)
  {
    forall i :: 0 <= i < |s| ==> !IsAsciiUpper(s[i])
  }

  /** Lower-casing leaves a string without upper-case letters alone. */
  lemma {:induction false} LowerKeepsLower(s: string)
    requires HasNoUpper(s)
    ensures Lower(s) == s
  {
    if s != [] {
      assert HasNoUpper(s[1..]) by {
        forall i | 0 <= i < |s| - 1 ensures !IsAsciiUpper(s[1..][i]) {
          assert s[1..][i] == s[i + 1];
        }
      }
      LowerKeepsLower(s[1..]);
    }
  }

  /** A string as the `lowercase` and `trim` setters leave it. */
  predicate IsNormalized(s: string)
  {
    HasNoUpper(s) && IsTrimmed(s)
  }

  /** Lower-casing keeps white space where it is, so it commutes with cutting leading white space. */
  lemma {:induction false} TrimStartLower(s: string)
    ensures TrimStart(Lower(s)) == Lower(TrimStart(s))
  {
    if s != [] {
      assert Lower(s)[1..] == Lower(s[1..]);
      TrimStartLower(s[1..]);
    }
  }

  /** Lower-casing commutes with cutting trailing white space. */
  lemma {:induction false} TrimEndLower(s: string)
    ensures TrimEnd(Lower(s)) == Lower(TrimEnd(s))
  {
    if s != [] {
      assert Lower(s)[..|s| - 1] == Lower(s[..|s| - 1]);
      TrimEndLower(s[..|s| - 1]);
    }
  }

  /**
   * The setters of a `{ lowercase: true, trim: true }` string path, in that
   * order. The order does not matter: the result is also the trimmed input,
   * lower-cased.
   */
  function Normalize(s: string): (r: string)
    ensures IsNormalized(r)
    ensures r == Lower(Trim(s))
  {
    TrimStartLower(s);
    TrimEndLower(TrimStart(s));
    Trim(Lower(s))
  }

  /** The setters change nothing on a value they produced. */
  lemma NormalizeKeepsNormalized(s: string)
    requires IsNormalized(s)
    ensures Normalize(s) == s
  {
    LowerKeepsLower(s);
    TrimKeepsTrimmed(s);
  }

  lemma NormalizeIdempotent(s: string)
    ensures Normalize(Normalize(s)) == Normalize(s)
  {
    NormalizeKeepsNormalized(Normalize(s));
  }

  /** The `required: true` validator of a string path: absent or empty fails. */
  predicate PresentString(s: string)
  {
    |s| > 0
  }

  /** What a `{ type: String, required: true, trim: true }` path stores, or None when validation fails. */
  function RequiredTrimmed(s: string): (r: Option<string>)
    ensures r.Some? <==> exists i :: 0 <= i < |s| && !IsJsSpace(s[i])
    ensures r.Some? ==> r.value == Trim(s) && PresentString(r.value) && IsTrimmed(r.value)
  {
    var t := Trim(s);
    if PresentString(t) then Some(t)
    else
      assert forall i :: 0 <= i < |s| ==> IsJsSpace(s[i]);
      None
  }
}
