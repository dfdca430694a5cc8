/** The clean-up script (tools/remove_sensitive_fields.py): it deletes the
    `personality` and `introduction` fields from every character of the
    characters file, counts the characters it changed, and writes the file
    back. Reading and writing the file are left to the caller: the script
    here maps the loaded document to the document it would write, or to a
    failure when Python would raise before writing. */
module SensitiveFields {
  import opened Text

  /** A JSON value as Python's `json.load` returns it. */
  datatype Json =
    | JNull
    | JBool(b: bool)
    | JNum(n: real)
    | JStr(s: string)
    | JArr(items: seq<Json>)
    | JObj(fields: map<string, Json>)

  /** Written: the document written back and the number of characters
      changed. Failed: Python raised before writing anything. */
  datatype Outcome = Written(data: map<string, Json>, removedCount: nat) | Failed

  const Sensitive: set<string> := {"personality", "introduction"}

  /** A character object holding a field that is removed. */
  predicate Touched(e: Json) {
    e.JObj? && ("personality" in e.fields || "introduction" in e.fields)
  }

  /** A character with both sensitive fields deleted. */
  function Cleaned(e: Json): (r: Json)
    ensures r.JObj? <==> e.JObj?
    ensures r.JObj? ==> r.fields.Keys == e.fields.Keys - Sensitive
    ensures r.JObj? ==> forall k :: k in r.fields ==> r.fields[k] == e.fields[k]
    ensures !e.JObj? ==> r == e
    ensures !Touched(e) ==> r == e
    ensures !Touched(r)
  {
    if e.JObj? then
      var r := JObj(e.fields - Sensitive);
      assert !Touched(e) ==> e.fields - Sensitive == e.fields;
      r
    else e
  }

  /** Whether the loop body gets through one element without raising.
      On a dict it deletes the fields and then prints the character's
      `name` and `id` (a `KeyError` when one is missing); on a string or a
      list the `in` test is a substring or membership test, and a hit
      makes `del` raise a `TypeError`; on any other value `in` raises. */
  predicate ElementOk(e: Json) {
    match e
    case JObj(fields) => !Touched(e) || ("name" in fields && "id" in fields)
    case JStr(s) => !Contains(s, "personality") && !Contains(s, "introduction")
    case JArr(items) => JStr("personality") !in items && JStr("introduction") !in items
    case _ => false
  }

  /** Characters among `xs` that have a field removed. */
  function CountTouched(xs: seq<Json>): (n: nat)
    ensures n <= |xs|
    decreases |xs|
  {
    if xs == [] then 0
    else CountTouched(xs[..|xs| - 1]) + (if Touched(xs[|xs| - 1]) then 1 else 0)
  }

  function CleanAll(xs: seq<Json>): (r: seq<Json>)
    ensures |r| == |xs| && forall i :: 0 <= i < |xs| ==> r[i] == Cleaned(xs[i])
  {
    seq(|xs|, i requires 0 <= i < |xs| => Cleaned(xs[i]))
  }

  /** The loop over a list of characters: each dict loses its sensitive
      fields in place and counts when it had one; the loop stops at the
      first element on which Python raises. */
  method CleanCharacters(xs: seq<Json>) returns (ok: bool, chars: seq<Json>, removedCount: nat)
    ensures ok <==> forall i :: 0 <= i < |xs| ==> ElementOk(xs[i])
    ensures ok ==> chars == CleanAll(xs) && removedCount == CountTouched(xs)
  {
    chars := xs;
    removedCount := 0;
    var i := 0;
    while i < |xs|
      invariant 0 <= i <= |xs| && |chars| == |xs|
      invariant forall j :: 0 <= j < i ==> chars[j] == Cleaned(xs[j]) && ElementOk(xs[j])
      invariant forall j :: i <= j < |xs| ==> chars[j] == xs[j]
      invariant removedCount == CountTouched(xs[..i])
    {
      assert xs[..i + 1][..i] == xs[..i];
      match chars[i] {
        case JObj(fields) =>
          var removed := false;
          var kept := fields;
          if "personality" in kept {
            kept := kept - {"personality"};
            removed := true;
          }
          if "introduction" in kept {
            kept := kept - {"introduction"};
            removed := true;
          }
          assert kept == fields - Sensitive;
          chars := chars[i := JObj(kept)];
          if removed {
            removedCount := removedCount + 1;
            if !("name" in kept && "id" in kept) {
              return false, chars, removedCount;
            }
          }
        case JStr(s) =>
          if Contains(s, "personality") || Contains(s, "introduction") {
            return false, chars, removedCount;
          }
        case JArr(items) =>
          if JStr("personality") in items || JStr("introduction") in items {
            return false, chars, removedCount;
          }
        case _ =>
          return false, chars, removedCount;
      }
      i := i + 1;
    }
    assert xs[..|xs|] == xs;
    return true, chars, removedCount;
  }

  /** Iterating a dict visits its keys, each a string. */
  method CheckKeys(keys: set<string>) returns (ok: bool)
    ensures ok <==> forall k :: k in keys ==> ElementOk(JStr(k))
  {
    var rest := keys;
    while rest != {}
      invariant rest <= keys
      invariant forall k :: k in keys - rest ==> ElementOk(JStr(k))
      decreases rest
    {
      var k :| k in rest;
      if Contains(k, "personality") || Contains(k, "introduction") {
        return false;
      }
      rest := rest - {k};
    }
    return true;
  }

  /** `remove_sensitive_fields` on a loaded document: `data.get('characters',
      [])`, then the loop. A string iterates as one-character strings,
      which never hold a sensitive name. */
  method RemoveSensitiveFields(data: map<string, Json>) returns (r: Outcome)
    ensures "characters" !in data ==> r == Written(data, 0)
    ensures "characters" in data && data["characters"].JArr? ==>
      var xs := data["characters"].items;
      && (r.Written? <==> forall i :: 0 <= i < |xs| ==> ElementOk(xs[i]))
      && (r.Written? ==> r == Written(data["characters" := JArr(CleanAll(xs))], CountTouched(xs)))
    ensures "characters" in data && data["characters"].JObj? ==>
      var keys := data["characters"].fields.Keys;
      && (r.Written? <==> forall k :: k in keys ==> ElementOk(JStr(k)))
      && (r.Written? ==> r == Written(data, 0))
    ensures "characters" in data && data["characters"].JStr? ==> r == Written(data, 0)
    ensures "characters" in data && (data["characters"].JNull? || data["characters"].JBool? || data["characters"].JNum?)
      ==> r.Failed?
  {
    if "characters" !in data {
      return Written(data, 0);
    }
    match data["characters"]
    case JArr(xs) =>
      var ok, chars, removedCount := CleanCharacters(xs);
      r := if ok then Written(data["characters" := JArr(chars)], removedCount) else Failed;
    case JObj(fields) =>
      var ok := CheckKeys(fields.Keys);
      r := if ok then Written(data, 0) else Failed;
    case JStr(_) =>
      r := Written(data, 0);
    case _ =>
      r := Failed;
  }

  /** After a successful run no character has a sensitive field, every
      other field of every character is kept, and every top-level key
      other than `characters` is untouched. */
  lemma CleanedDocument(data: map<string, Json>, xs: seq<Json>)
    requires "characters" in data && data["characters"] == JArr(xs)
    ensures var out := data["characters" := JArr(CleanAll(xs))];
      && out.Keys == data.Keys
      && (forall k :: k in data && k != "characters" ==> out[k] == data[k])
      && (forall i :: 0 <= i < |xs| ==> !Touched(out["characters"].items[i]))
      && (forall i, k :: 0 <= i < |xs| && xs[i].JObj? && k in xs[i].fields && k !in Sensitive ==>
            k in out["characters"].items[i].fields && out["characters"].items[i].fields[k] == xs[i].fields[k])
  {
  }

  /** Every element the first run got through, the second gets through
      too, and nothing is left to remove. */
  lemma {:induction false} CleanedStaysOk(xs: seq<Json>)
    requires forall i :: 0 <= i < |xs| ==> ElementOk(xs[i])
    ensures forall i :: 0 <= i < |xs| ==> ElementOk(CleanAll(xs)[i])
    ensures CountTouched(CleanAll(xs)) == 0
    ensures CleanAll(CleanAll(xs)) == CleanAll(xs)
    decreases |xs|
  {
    if xs != [] {
      var init := xs[..|xs| - 1];
      CleanedStaysOk(init);
      assert CleanAll(xs)[..|xs| - 1] == CleanAll(init);
    }
  }

  /** Running the script on its own output changes nothing and counts no
      character. */
  lemma SecondRunIsIdempotent(data: map<string, Json>)
    requires "characters" in data && data["characters"].JArr?
    requires forall i :: 0 <= i < |data["characters"].items| ==> ElementOk(data["characters"].items[i])
    ensures var xs := data["characters"].items; var out := data["characters" := JArr(CleanAll(xs))];
      && (forall i :: 0 <= i < |xs| ==> ElementOk(out["characters"].items[i]))
      && out["characters" := JArr(CleanAll(out["characters"].items))] == out
      && CountTouched(out["characters"].items) == 0
  {
    CleanedStaysOk(data["characters"].items);
  }
}
