/** The four string and sequence helpers of Lab6/builtin-functions.py:
    multiply_list, count_case, is_palindrome and all_true.
    Characters are classified as in ASCII: `isupper`, `islower` and
    `lower` are modelled on 'A'..'Z' and 'a'..'z' only. */
module BuiltinFunctions {

  // ---------------------------------------------------------------------
  // multiply_list: functools.reduce(operator.mul, lst, 1)
  // ---------------------------------------------------------------------

  /** The left fold of multiplication over `xs`, starting from 1:
      ((1 * xs[0]) * xs[1]) * ... . It is 1 on the empty list and 0 exactly
      when some element is 0. */
  function MultiplyList(xs: seq<int>): (r: int)
    ensures xs == [] ==> r == 1
    ensures r == 0 <==> 0 in xs
    decreases |xs|
  {
    if xs == [] then 1
    else
      var front := xs[..|xs| - 1];
      assert 0 in xs <==> 0 in front || xs[|xs| - 1] == 0 by {
        assert xs == front + [xs[|xs| - 1]];
      }
      MultiplyList(front) * xs[|xs| - 1]
  }

  /** The product written as a right fold: an independent reference
      definition of "the product of all elements". */
  function Product(xs: seq<int>): int
    decreases |xs|
  {
    if xs == [] then 1 else xs[0] * Product(xs[1..])
  }

  lemma {:induction false} ProductAppend(xs: seq<int>, ys: seq<int>)
    ensures Product(xs + ys) == Product(xs) * Product(ys)
    decreases |xs|
  {
    if xs == [] {
      assert xs + ys == ys;
    } else {
      assert (xs + ys)[1..] == xs[1..] + ys;
      ProductAppend(xs[1..], ys);
      calc {
        Product(xs + ys);
        xs[0] * Product(xs[1..] + ys);
        xs[0] * (Product(xs[1..]) * Product(ys));
        (xs[0] * Product(xs[1..])) * Product(ys);
      }
    }
  }

  /** multiply_list returns the product of all elements, whatever the
      order of association. */
  lemma {:induction false} MultiplyListIsProduct(xs: seq<int>)
    ensures MultiplyList(xs) == Product(xs)
    decreases |xs|
  {
    if xs != [] {
      var front, last := xs[..|xs| - 1], xs[|xs| - 1];
      assert xs == front + [last];
      MultiplyListIsProduct(front);
      ProductAppend(front, [last]);
      assert Product([last]) == last * Product([]);
    }
  }

  /** The product of a concatenation is the product of the products. */
  lemma MultiplyListAppend(xs: seq<int>, ys: seq<int>)
    ensures MultiplyList(xs + ys) == MultiplyList(xs) * MultiplyList(ys)
  {
    MultiplyListIsProduct(xs);
    MultiplyListIsProduct(ys);
    MultiplyListIsProduct(xs + ys);
    ProductAppend(xs, ys);
  }

  lemma MultiplyListExample()
    ensures MultiplyList([1, 2, 3, 4]) == 24
    ensures MultiplyList([]) == 1
  {
    assert [1, 2, 3, 4][..3] == [1, 2, 3];
    assert [1, 2, 3][..2] == [1, 2];
    assert [1, 2][..1] == [1];
    assert [1][..0] == [];
  }

  // ---------------------------------------------------------------------
  // count_case
  // ---------------------------------------------------------------------

  predicate IsUpper(c: char)
  {
    'A' <= c <= 'Z'
  }

  predicate IsLower(c: char)
  {
    'a' <= c <= 'z'
  }

  /** The dictionary {"Uppercase": upper, "Lowercase": lower}. */
  datatype CaseCount = CaseCount(upper: nat, lower: nat)

  /** The number of characters of `s` satisfying `IsUpper`. */
  function CountUpper(s: string): (n: nat)
    ensures n <= |s|
    ensures n == 0 <==> forall i :: 0 <= i < |s| ==> !IsUpper(s[i])
    decreases |s|
  {
    if s == [] then 0
    else
      assert forall i :: 1 <= i < |s| ==> s[i] == s[1..][i - 1];
      (if IsUpper(s[0]) then 1 else 0) + CountUpper(s[1..])
  }

  /** The number of characters of `s` satisfying `IsLower`. */
  function CountLower(s: string): (n: nat)
    ensures n <= |s|
    ensures n == 0 <==> forall i :: 0 <= i < |s| ==> !IsLower(s[i])
    decreases |s|
  {
    if s == [] then 0
    else
      assert forall i :: 1 <= i < |s| ==> s[i] == s[1..][i - 1];
      (if IsLower(s[0]) then 1 else 0) + CountLower(s[1..])
  }

  /** No character is both upper- and lower-case, so the two counts
      together never exceed the length; characters that are neither
      (digits, spaces, punctuation) are counted in neither. */
  lemma {:induction false} CaseCountBound(s: string)
    ensures CountUpper(s) + CountLower(s) <= |s|
    ensures CountUpper(s) + CountLower(s) == |s| <==>
              forall i :: 0 <= i < |s| ==> IsUpper(s[i]) || IsLower(s[i])
    decreases |s|
  {
    if s != [] {
      CaseCountBound(s[1..]);
      assert forall i :: 1 <= i < |s| ==> s[i] == s[1..][i - 1];
    }
  }

  /** The dictionary count_case returns: its two entries are the two
      counts, so neither exceeds the length and together they do not. */
  function CountCase(s: string): (r: CaseCount)
    ensures r.upper == CountUpper(s) && r.lower == CountLower(s)
    ensures r.upper + r.lower <= |s|
  {
    CaseCountBound(s);
    CaseCount(CountUpper(s), CountLower(s))
  }

  lemma {:induction false} CountAppend(s: string, t: string)
    ensures CountUpper(s + t) == CountUpper(s) + CountUpper(t)
    ensures CountLower(s + t) == CountLower(s) + CountLower(t)
    decreases |s|
  {
    if s != [] {
      assert (s + t)[1..] == s[1..] + t;
      CountAppend(s[1..], t);
    } else {
      assert s + t == t;
    }
  }

  lemma CountHello()
    ensures CountUpper("Hello") == 1 && CountLower("Hello") == 4
  {
  }

  lemma CountWorld()
    ensures CountUpper(" World!") == 1 && CountLower(" World!") == 4
  {
  }

  /** The output given beside count_case in the source. */
  lemma CountCaseExample(s: string)
    requires s == "Hello" + " World!"
    ensures CountCase(s) == CaseCount(2, 8)
  {
    CountHello();
    CountWorld();
    CountAppend("Hello", " World!");
  }

  // ---------------------------------------------------------------------
  // is_palindrome: s.lower().replace(" ", "") == its reverse
  // ---------------------------------------------------------------------

  function LowerChar(c: char): char
  {
    if IsUpper(c) then (c as int + ('a' as int - 'A' as int)) as char else c
  }

  function UpperChar(c: char): char
  {
    if IsLower(c) then (c as int - ('a' as int - 'A' as int)) as char else c
  }

  /** str.lower() */
  function Lower(s: string): string
  {
    seq(|s|, i requires 0 <= i < |s| => LowerChar(s[i]))
  }

  /** str.upper() */
  function Upper(s: string): string
  {
    seq(|s|, i requires 0 <= i < |s| => UpperChar(s[i]))
  }

  /** str.replace(" ", ""): every ' ' dropped; a string without spaces is
      returned as it is, so with RemoveSpacesAppend every other character
      is kept, in order. */
  function RemoveSpaces(s: string): (r: string)
    ensures ' ' !in r
    ensures |r| <= |s|
    ensures ' ' !in s ==> r == s
    decreases |s|
  {
    if s == [] then []
    else if s[0] == ' ' then RemoveSpaces(s[1..])
    else [s[0]] + RemoveSpaces(s[1..])
  }

  /** Every character other than ' ' survives, as often as it occurs. */
  lemma {:induction false} RemoveSpacesKeepsOthers(s: string)
    ensures multiset(RemoveSpaces(s)) == multiset(s)[' ' := 0]
    decreases |s|
  {
    if s != [] {
      assert s == [s[0]] + s[1..];
      RemoveSpacesKeepsOthers(s[1..]);
    }
  }

  /** The slice s[::-1]. */
  function Reverse(s: string): string
  {
    seq(|s|, i requires 0 <= i < |s| => s[|s| - 1 - i])
  }

  /** The string is_palindrome compares with its reverse. */
  function Normalize(s: string): string
  {
    RemoveSpaces(Lower(s))
  }

  predicate IsPalindrome(s: string)
  {
    var t := Normalize(s);
    t == Reverse(t)
  }

  /** is_palindrome holds exactly when the normalised string reads the same
      from both ends. */
  lemma PalindromeIffMirrored(s: string)
    ensures IsPalindrome(s) <==>
              var t := Normalize(s);
              forall i :: 0 <= i < |t| ==> t[i] == t[|t| - 1 - i]
  {
  }

  lemma {:induction false} RemoveSpacesAppend(s: string, t: string)
    ensures RemoveSpaces(s + t) == RemoveSpaces(s) + RemoveSpaces(t)
    decreases |s|
  {
    if s == [] {
      assert s + t == t;
    } else {
      assert (s + t)[1..] == s[1..] + t;
      RemoveSpacesAppend(s[1..], t);
    }
  }

  lemma LowerAppend(s: string, t: string)
    ensures Lower(s + t) == Lower(s) + Lower(t)
  {
  }

  /** Normalising drops a space between any two parts. */
  lemma NormalizeDropsSpace(a: string, b: string)
    ensures Normalize(a + " " + b) == Normalize(a + b)
  {
    var la, lb := Lower(a), Lower(b);
    LowerAppend(a + " ", b);
    LowerAppend(a, " ");
    LowerAppend(a, b);
    assert Lower(" ") == " ";
    RemoveSpacesAppend(la + " ", lb);
    RemoveSpacesAppend(la, " ");
    RemoveSpacesAppend(la, lb);
    assert RemoveSpaces(" ") == [];
    assert RemoveSpaces(la) + [] == RemoveSpaces(la);
  }

  /** Inserting a space anywhere does not change the answer. */
  lemma PalindromeIgnoresSpace(s: string, k: nat)
    requires k <= |s|
    ensures IsPalindrome(s[..k] + " " + s[k..]) == IsPalindrome(s)
  {
    assert s == s[..k] + s[k..];
    NormalizeDropsSpace(s[..k], s[k..]);
  }

  /** Changing letter case does not change the answer. */
  lemma PalindromeIgnoresCase(s: string)
    ensures IsPalindrome(Upper(s)) == IsPalindrome(s)
    ensures IsPalindrome(Lower(s)) == IsPalindrome(s)
  {
    assert Lower(Upper(s)) == Lower(s);
    assert Lower(Lower(s)) == Lower(s);
  }

  /** The outputs given beside is_palindrome in the source. */
  lemma PalindromeMadam()
    ensures IsPalindrome("madam")
  {
  }

  lemma PalindromeHello()
    ensures !IsPalindrome("hello")
  {
    assert Lower("hello") == "hello";
    assert RemoveSpaces("hello") == "hello";
    assert Reverse("hello")[0] == 'o';
  }

  // ---------------------------------------------------------------------
  // all_true: all(tpl)
  // ---------------------------------------------------------------------

  /** all(): true of the empty tuple, and true exactly when no element is
      false. */
  function AllTrue(t: seq<bool>): (r: bool)
    ensures r <==> forall i :: 0 <= i < |t| ==> t[i]
    decreases |t|
  {
    if t == [] then true
    else
      assert forall i :: 1 <= i < |t| ==> t[i] == t[1..][i - 1];
      t[0] && AllTrue(t[1..])
  }

  lemma AllTrueExamples()
    ensures AllTrue([true, true, true])
    ensures !AllTrue([true, false, true])
    ensures AllTrue([])
  {
  }
}
