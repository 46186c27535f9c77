/**
 * The two helpers the model takes from the library's `Util` mixin:
 * `method_to_field` and `delete_from_hash`.
 */
module Util {
  import opened Ruby

  /**
   * `method_to_field`: an accessor's name turned into a field name, every
   * underscore replaced by a hyphen and every other character (a trailing
   * `=` among them) kept.
   */
  function MethodToField(name: string): (r: string)
    ensures |r| == |name|
    ensures forall i :: 0 <= i < |r| ==> r[i] != '_'
    ensures forall i :: 0 <= i < |r| && name[i] != '_' ==> r[i] == name[i]
    ensures forall i :: 0 <= i < |r| && name[i] == '_' ==> r[i] == '-'
  {
    seq(|name|, i requires 0 <= i < |name| => if name[i] == '_' then '-' else name[i])
  }

  /** Turning `name=` into a field name keeps the `=`, so chomping it gives the field of `name`. */
  lemma ChompSetterField(name: string)
    ensures IsSetterName(MethodToField(name + "="))
    ensures Chomp(MethodToField(name + "=")) == MethodToField(name)
  {
    var n := MethodToField(name + "=");
    assert n[|n| - 1] == '=';
    assert n[..|n| - 1] == MethodToField(name);
  }

  /** A field name ends with `=` exactly when the accessor name it came from does. */
  lemma MethodToFieldSetter(name: string)
    ensures IsSetterName(MethodToField(name)) <==> IsSetterName(name)
  {
  }

  /** Names with no underscore are field names already; normalising twice changes nothing. */
  lemma MethodToFieldFixed(name: string)
    ensures (forall i :: 0 <= i < |name| ==> name[i] != '_') ==> MethodToField(name) == name
    ensures MethodToField(MethodToField(name)) == MethodToField(name)
  {
  }

  /** The keys of `s` outside `drop`, in their original order. */
  function KeysWithout(s: seq<string>, drop: set<string>): (r: seq<string>)
    ensures forall k :: k in r <==> k in s && k !in drop
    ensures |r| <= |s|
    ensures Distinct(s) ==> Distinct(r)
  {
    if s == [] then []
    else if s[0] in drop then KeysWithout(s[1..], drop)
    else [s[0]] + KeysWithout(s[1..], drop)
  }

  /** Filtering distributes over concatenation: relative order is kept. */
  lemma {:induction false} KeysWithoutAppend(a: seq<string>, b: seq<string>, drop: set<string>)
    ensures KeysWithout(a + b, drop) == KeysWithout(a, drop) + KeysWithout(b, drop)
  {
    if a == [] {
      assert a + b == b;
    } else {
      assert (a + b)[1..] == a[1..] + b;
      KeysWithoutAppend(a[1..], b, drop);
    }
  }

  /** Keys none of which is dropped come through unchanged. */
  lemma {:induction false} KeysWithoutNone(s: seq<string>, drop: set<string>)
    requires forall i :: 0 <= i < |s| ==> s[i] !in drop
    ensures KeysWithout(s, drop) == s
  {
    if s != [] {
      KeysWithoutNone(s[1..], drop);
    }
  }

  /** Keys every one of which is dropped leave nothing behind. */
  lemma {:induction false} KeysWithoutAll(s: seq<string>, drop: set<string>)
    requires forall i :: 0 <= i < |s| ==> s[i] in drop
    ensures KeysWithout(s, drop) == []
  {
    if s != [] {
      KeysWithoutAll(s[1..], drop);
    }
  }

  /**
   * `delete_from_hash(hash, *keys)`: a copy of the hash without the named
   * keys; every other key keeps its value and its place in the order.
   */
  function DeleteFromHash(h: Hash, drop: set<string>): (r: Hash)
    ensures h.Valid() ==> r.Valid()
    ensures forall k :: r.Lookup(k) == if k in drop then None else h.Lookup(k)
    ensures r.keys == KeysWithout(h.keys, drop)
  {
    Hash(KeysWithout(h.keys, drop), h.entries - drop)
  }
}
