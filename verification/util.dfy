/**
 * The table-name sanitiser `sql_safe_name`: two regular-expression passes,
 * first every whitespace character becomes `_`, then every non-word character
 * is dropped. The patterns are compiled without the UNICODE flag, so
 * whitespace is the six ASCII characters space, tab, line feed, vertical tab,
 * form feed and carriage return, and a word character is an ASCII letter, an
 * ASCII digit or `_`.
 */
module Util {
  import opened Wrappers

  /** Python truthiness of an optional string: present and non-empty. */
  predicate Truthy(name: Option<string>) {
    name.Some? && name.value != []
  }

  /** `\s`: space or one of the code points 9..13 (\t \n \v \f \r). */
  predicate IsSpace(c: char) {
    c == ' ' || ('\t' <= c <= '\r')
  }

  /** `\w`: `[A-Za-z0-9_]`. */
  predicate IsWordChar(c: char) {
    ('a' <= c <= 'z') || ('A' <= c <= 'Z') || ('0' <= c <= '9') || c == '_'
  }

  predicate AllWordChars(s: string) {
    forall i :: 0 <= i < |s| ==> IsWordChar(s[i])
  }

  /** `re.sub("\s", "_", s)` */
  function ReplaceSpaces(s: string): (r: string)
    ensures |r| == |s|
  {
    if s == [] then []
    else [if IsSpace(s[0]) then '_' else s[0]] + ReplaceSpaces(s[1..])
  }

  /** `re.sub("\W", "", s)` */
  function DropNonWord(s: string): (r: string)
    ensures |r| <= |s|
    ensures forall i :: 0 <= i < |r| ==> IsWordChar(r[i])
  {
    if s == [] then []
    else (if IsWordChar(s[0]) then [s[0]] else []) + DropNonWord(s[1..])
  }

  function SqlSafeName(name: string): (r: string)
    ensures AllWordChars(r)
    ensures |r| <= |name|
  {
    SqlSafeLength(name);
    DropNonWord(ReplaceSpaces(name))
  }

  /** What a single character becomes: `_` for whitespace, itself for a word character, nothing otherwise. */
  function SafeChar(c: char): string {
    if IsSpace(c) then "_" else if IsWordChar(c) then [c] else ""
  }

  lemma {:induction false} DropNonWordWords(s: string)
    ensures AllWordChars(DropNonWord(s))
    ensures |DropNonWord(s)| <= |s|
    ensures |DropNonWord(s)| == |s| <==> AllWordChars(s)
  {
    if s != [] {
      DropNonWordWords(s[1..]);
      var r := DropNonWord(s);
      var head := if IsWordChar(s[0]) then [s[0]] else [];
      assert r == head + DropNonWord(s[1..]);
      forall i | 0 <= i < |r| ensures IsWordChar(r[i]) {
        if i >= |head| { assert r[i] == DropNonWord(s[1..])[i - |head|]; }
      }
      if AllWordChars(s) {
        assert AllWordChars(s[1..]) by {
          forall i | 0 <= i < |s[1..]| ensures IsWordChar(s[1..][i]) { assert s[1..][i] == s[i + 1]; }
        }
      }
      if |r| == |s| {
        assert IsWordChar(s[0]);
        forall i | 0 <= i < |s| ensures IsWordChar(s[i]) {
          if i > 0 { assert s[i] == s[1..][i - 1]; }
        }
      }
    }
  }

  lemma {:induction false} ReplaceSpacesShape(s: string)
    ensures |ReplaceSpaces(s)| == |s|
    ensures forall i :: 0 <= i < |s| ==> ReplaceSpaces(s)[i] == if IsSpace(s[i]) then '_' else s[i]
  {
    if s != [] {
      ReplaceSpacesShape(s[1..]);
    }
  }

  lemma SqlSafeLength(name: string)
    ensures AllWordChars(DropNonWord(ReplaceSpaces(name)))
    ensures |DropNonWord(ReplaceSpaces(name))| <= |name|
  {
    ReplaceSpacesShape(name);
    DropNonWordWords(ReplaceSpaces(name));
  }

  /** The output is as long as the input exactly when nothing is dropped. */
  lemma SqlSafeNameLength(name: string)
    ensures |SqlSafeName(name)| == |name| <==> forall i :: 0 <= i < |name| ==> IsWordChar(name[i]) || IsSpace(name[i])
  {
    var t := ReplaceSpaces(name);
    ReplaceSpacesShape(name);
    DropNonWordWords(t);
    assert (forall i :: 0 <= i < |t| ==> IsWordChar(t[i])) <==>
           (forall i :: 0 <= i < |name| ==> IsWordChar(name[i]) || IsSpace(name[i]));
  }

  lemma {:induction false} ReplaceSpacesAppend(a: string, b: string)
    ensures ReplaceSpaces(a + b) == ReplaceSpaces(a) + ReplaceSpaces(b)
  {
    if a != [] {
      assert (a + b)[1..] == a[1..] + b;
      ReplaceSpacesAppend(a[1..], b);
    } else {
      assert a + b == b;
    }
  }

  lemma {:induction false} DropNonWordAppend(a: string, b: string)
    ensures DropNonWord(a + b) == DropNonWord(a) + DropNonWord(b)
  {
    if a != [] {
      assert (a + b)[1..] == a[1..] + b;
      DropNonWordAppend(a[1..], b);
    } else {
      assert a + b == b;
    }
  }

  /** The sanitiser works character by character: it distributes over concatenation ... */
  lemma SqlSafeNameAppend(a: string, b: string)
    ensures SqlSafeName(a + b) == SqlSafeName(a) + SqlSafeName(b)
  {
    ReplaceSpacesAppend(a, b);
    DropNonWordAppend(ReplaceSpaces(a), ReplaceSpaces(b));
  }

  /** ... and each character becomes `SafeChar` of it. */
  lemma SqlSafeNameChar(c: char)
    ensures SqlSafeName([c]) == SafeChar(c)
  {
    var t := [if IsSpace(c) then '_' else c];
    assert ReplaceSpaces([c]) == t + ReplaceSpaces([c][1..]);
    assert [c][1..] == [] && ReplaceSpaces([]) == [];
    assert DropNonWord(t) == (if IsWordChar(t[0]) then [t[0]] else []) + DropNonWord(t[1..]);
    assert t[1..] == [];
  }

  /** A string of word characters is left as it is. */
  lemma {:induction false} DropNonWordOfWords(s: string)
    requires AllWordChars(s)
    ensures DropNonWord(s) == s
    ensures ReplaceSpaces(s) == s
  {
    if s != [] {
      assert IsWordChar(s[0]);
      assert AllWordChars(s[1..]) by {
        forall i | 0 <= i < |s[1..]| ensures IsWordChar(s[1..][i]) { assert s[1..][i] == s[i + 1]; }
      }
      DropNonWordOfWords(s[1..]);
    }
  }

  /** Sanitising twice is sanitising once. */
  lemma SqlSafeNameIdempotent(name: string)
    ensures SqlSafeName(SqlSafeName(name)) == SqlSafeName(name)
  {
    DropNonWordOfWords(SqlSafeName(name));
  }

  /** Two words joined by a space come out joined by an underscore. */
  lemma SqlSafeNameSpacedWords(a: string, b: string)
    requires AllWordChars(a) && AllWordChars(b)
    ensures SqlSafeName(a + " " + b) == a + "_" + b
  {
    DropNonWordOfWords(a);
    DropNonWordOfWords(b);
    SqlSafeNameChar(' ');
    SqlSafeNameAppend(a, " ");
    SqlSafeNameAppend(a + " ", b);
  }

  /** Whitespace turns into `_`: the derived table name of a project called "Test Table". */
  lemma SqlSafeNameExample()
    ensures SqlSafeName("Test Table") == "Test_Table"
  {
    var test, table := "Test", "Table";
    assert AllWordChars(test) && AllWordChars(table);
    SqlSafeNameSpacedWords(test, table);
    assert test + " " + table == "Test Table";
    assert test + "_" + table == "Test_Table";
  }
}
