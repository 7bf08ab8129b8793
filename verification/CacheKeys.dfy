/** The string keys of the two caches, and the file names made from them. */
module CacheKeys {
  function Separated(separator: char, a: string, b: string, c: string): string {
    a + [separator] + b + [separator] + c
  }

  /** `f"{a}+{b}+{c}"`. */
  function Join3(a: string, b: string, c: string): string {
    Separated('+', a, b, c)
  }

  /** A tag that is missing or empty adds nothing. */
  function Tagged(separator: char, name: string, tag: string): string {
    if tag == "" then name else name + [separator] + "tag:" + tag
  }

  function ConfigKey(tenant: string, group: string, dataId: string, tag: string): string {
    Tagged('+', Join3(tenant, group, dataId), tag)
  }

  /** The part before the first separator is determined by the whole. */
  lemma FirstPart(separator: char, a: string, s: string, b: string, t: string)
    requires separator !in a && separator !in b && a + [separator] + s == b + [separator] + t
    ensures a == b && s == t
  {
    var x, y := a + [separator] + s, b + [separator] + t;
    assert x[|a|] == separator && y[|b|] == separator;
    assert forall i :: 0 <= i < |a| ==> x[i] == a[i] && x[i] in a;
    assert forall i :: 0 <= i < |b| ==> y[i] == b[i] && y[i] in b;
    assert |a| == |b|;
    assert x[..|a|] == a && y[..|b|] == b && x[|a| + 1..] == s && y[|b| + 1..] == t;
  }

  lemma SeparatedInjective(separator: char, a: string, b: string, c: string, x: string, y: string, z: string)
    requires separator !in a && separator !in b && separator !in x && separator !in y
    ensures Separated(separator, a, b, c) == Separated(separator, x, y, z) <==> a == x && b == y && c == z
  {
    var bar := [separator];
    assert Separated(separator, a, b, c) == a + bar + (b + bar + c);
    assert Separated(separator, x, y, z) == x + bar + (y + bar + z);
    if Separated(separator, a, b, c) == Separated(separator, x, y, z) {
      FirstPart(separator, a, b + bar + c, x, y + bar + z);
      FirstPart(separator, b, c, y, z);
    }
  }

  /** Tenants and groups without a '+' are told apart by the key, and the last part with them, whatever is in it. */
  lemma Join3Injective(a: string, b: string, c: string, x: string, y: string, z: string)
    requires '+' !in a && '+' !in b && '+' !in x && '+' !in y
    ensures Join3(a, b, c) == Join3(x, y, z) <==> a == x && b == y && c == z
  {
    SeparatedInjective('+', a, b, c, x, y, z);
  }

  lemma TaggedInjective(separator: char, c: string, t: string, z: string, u: string)
    requires separator !in c && separator !in z
    ensures Tagged(separator, c, t) == Tagged(separator, z, u) <==> c == z && t == u
  {
    var left, right := Tagged(separator, c, t), Tagged(separator, z, u);
    assert t != "" ==> left[|c|] == separator && separator in left;
    assert u != "" ==> right[|z|] == separator && separator in right;
    if left == right && t != "" && u != "" {
      assert left == c + [separator] + ("tag:" + t) && right == z + [separator] + ("tag:" + u);
      FirstPart(separator, c, "tag:" + t, z, "tag:" + u);
      assert ("tag:" + t)[4..] == t && ("tag:" + u)[4..] == u;
    }
  }

  /** The tag belongs to the last part. */
  lemma TagLast(separator: char, a: string, b: string, c: string, t: string)
    ensures Tagged(separator, Separated(separator, a, b, c), t) == Separated(separator, a, b, Tagged(separator, c, t))
  {
  }

  /** Nor do two configurations share a key if their names have no '+', whatever is in the tag. */
  lemma ConfigKeyInjective(a: string, b: string, c: string, t: string, x: string, y: string, z: string, u: string)
    requires '+' !in a && '+' !in b && '+' !in c && '+' !in x && '+' !in y && '+' !in z
    ensures ConfigKey(a, b, c, t) == ConfigKey(x, y, z, u) <==> a == x && b == y && c == z && t == u
  {
    hide Separated, Tagged;
    TagLast('+', a, b, c, t);
    TagLast('+', x, y, z, u);
    SeparatedInjective('+', a, b, Tagged('+', c, t), x, y, Tagged('+', z, u));
    TaggedInjective('+', c, t, z, u);
  }

  // ---------------------------------------------------------------- file names

  predicate Replaced(c: char) {
    c == '+' || c == '/' || c == '\\'
  }

  /** `_sanitize_filename`. */
  function FileName(key: string): string {
    if |key| == 0 then "" else [if Replaced(key[0]) then '_' else key[0]] + FileName(key[1..])
  }

  lemma {:induction false} FileNameAt(key: string, i: nat)
    requires i < |key|
    ensures |FileName(key)| == |key|
    ensures FileName(key)[i] == if Replaced(key[i]) then '_' else key[i]
  {
    if i > 0 {
      FileNameAt(key[1..], i - 1);
    } else if |key| > 1 {
      FileNameAt(key[1..], 0);
    }
  }

  lemma {:induction false} FileNameOfParts(a: string, b: string)
    ensures FileName(a + b) == FileName(a) + FileName(b)
  {
    if |a| == 0 {
      assert a + b == b;
    } else {
      FileNameOfParts(a[1..], b);
      hide Replaced;
      assert (a + b)[1..] == a[1..] + b && (a + b)[0] == a[0];
    }
  }

  /** A string the file name takes over as it is. */
  predicate Kept(s: string) {
    forall i :: 0 <= i < |s| ==> !Replaced(s[i])
  }

  lemma {:induction false} FileNameOfKept(s: string)
    requires Kept(s)
    ensures FileName(s) == s
  {
    if |s| > 0 {
      FileNameOfKept(s[1..]);
      assert s == [s[0]] + s[1..];
    }
  }

  lemma FileNameOfPlus()
    ensures FileName("+") == "_"
  {
    var plus := "+";
    assert plus[1..] == "" && FileName("") == "";
  }

  lemma FileNameOfSeparated(a: string, b: string, c: string)
    ensures FileName(Separated('+', a, b, c)) == Separated('_', FileName(a), FileName(b), FileName(c))
  {
    FileNameOfParts(a + "+" + b + "+", c);
    FileNameOfParts(a + "+" + b, "+");
    FileNameOfParts(a + "+", b);
    FileNameOfParts(a, "+");
    FileNameOfPlus();
  }

  lemma FileNameOfTagged(c: string, t: string)
    ensures FileName(Tagged('+', c, t)) == Tagged('_', FileName(c), FileName(t))
  {
    if t != "" {
      FileNameOfParts(c + "+" + "tag:", t);
      FileNameOfParts(c + "+", "tag:");
      FileNameOfParts(c, "+");
      FileNameOfPlus();
      FileNameOfKept("tag:");
      FileNameAt(t, 0);
    }
  }

  /** The names of a configuration whose file tells it apart: the tag may hold an underscore, the others may not. */
  predicate FileSafe(tenant: string, group: string, dataId: string, tag: string) {
    && Kept(tenant) && Kept(group) && Kept(dataId) && Kept(tag)
    && '_' !in tenant && '_' !in group && '_' !in dataId
  }

  /** Names without '+', '/', '\' and '_' have a file each. */
  lemma FileNamesDiffer(a: string, b: string, c: string, t: string, x: string, y: string, z: string, u: string)
    requires FileSafe(a, b, c, t) && FileSafe(x, y, z, u)
    ensures FileName(ConfigKey(a, b, c, t)) == FileName(ConfigKey(x, y, z, u)) <==> a == x && b == y && c == z && t == u
  {
    SafeFileName(a, b, c, t);
    SafeFileName(x, y, z, u);
    hide Separated, Tagged, Kept;
    SeparatedInjective('_', a, b, Tagged('_', c, t), x, y, Tagged('_', z, u));
    TaggedInjective('_', c, t, z, u);
  }

  lemma SafeFileName(a: string, b: string, c: string, t: string)
    requires FileSafe(a, b, c, t)
    ensures FileName(ConfigKey(a, b, c, t)) == Separated('_', a, b, Tagged('_', c, t))
  {
    hide Separated, Tagged;
    TagLast('+', a, b, c, t);
    FileNameOfSeparated(a, b, Tagged('+', c, t));
    FileNameOfTagged(c, t);
    FileNameOfKept(a);
    FileNameOfKept(b);
    FileNameOfKept(c);
    FileNameOfKept(t);
  }

  /** Characters that no file name tells apart. */
  predicate Alike(c: char, d: char) {
    c == d || ((Replaced(c) || c == '_') && (Replaced(d) || d == '_'))
  }

  lemma AlikeAt(k: string, l: string, i: nat)
    requires i < |k| == |l|
    ensures |FileName(k)| == |FileName(l)| == |k|
    ensures FileName(k)[i] == FileName(l)[i] <==> Alike(k[i], l[i])
  {
    FileNameAt(k, i);
    FileNameAt(l, i);
    hide FileName;
  }

  /** Two keys share a file exactly when they differ only in which of '+', '/', '\' and '_' stands where. */
  lemma FileSharedExactly(k: string, l: string)
    ensures FileName(k) == FileName(l) <==> |k| == |l| && forall i :: 0 <= i < |k| ==> Alike(k[i], l[i])
  {
    hide FileName, Alike;
    FileNameLength(k);
    FileNameLength(l);
    if |k| == |l| {
      forall i | 0 <= i < |k| ensures FileName(k)[i] == FileName(l)[i] <==> Alike(k[i], l[i]) {
        AlikeAt(k, l, i);
      }
      var f, g := FileName(k), FileName(l);
      if forall i :: 0 <= i < |k| ==> Alike(k[i], l[i]) {
        assert forall i :: 0 <= i < |f| ==> f[i] == g[i];
      }
    }
  }

  lemma FileNameLength(k: string)
    ensures |FileName(k)| == |k|
  {
    if |k| > 0 {
      FileNameAt(k, 0);
    }
  }

  /** Distinct keys may share a file: "a_b+c+d" and "a+b_c+d" do. */
  lemma FileNamesCollide()
    ensures ConfigKey("a_b", "c", "d", "") != ConfigKey("a", "b_c", "d", "")
    ensures FileName(ConfigKey("a_b", "c", "d", "")) == FileName(ConfigKey("a", "b_c", "d", ""))
  {
    var k, l := "a_b+c+d", "a+b_c+d";
    assert ConfigKey("a_b", "c", "d", "") == k && ConfigKey("a", "b_c", "d", "") == l;
    FileSharedExactly(k, l);
    assert k[1] != l[1];
  }

  /** How the keys look. */
  lemma KeyExamples()
    ensures Join3("t", "g", "s") == "t+g+s"
    ensures ConfigKey("t", "g", "d", "") == "t+g+d" && ConfigKey("t", "g", "d", "x") == "t+g+d+tag:x"
  {
  }
}
