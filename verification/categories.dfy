/** Category names offered for each kind of transaction, and the registration
    of a custom name (`addNewCategory`). */
module Categories {
  import opened Seqs

  datatype Kind = IncomeKind | ExpenseKind

  /** The built-in names of each kind. */
  function DefaultCategories(k: Kind): seq<string>
  {
    match k
    case IncomeKind => ["Salary", "Business", "Investment", "Freelance", "Other Income"]
    case ExpenseKind => ["Food", "Transportation", "Entertainment", "Shopping", "Bills", "Other Expense"]
  }

  /** The user's own names, one list per kind. */
  datatype CustomCategories = CustomCategories(income: seq<string>, expense: seq<string>)

  function Custom(cc: CustomCategories, k: Kind): seq<string>
  {
    match k
    case IncomeKind => cc.income
    case ExpenseKind => cc.expense
  }

  /** Every name known for kind `k`: built-in names first, then custom ones. */
  function Known(cc: CustomCategories, k: Kind): seq<string>
  {
    DefaultCategories(k) + Custom(cc, k)
  }

  // ----- `String.prototype.trim` -------------------------------------------

  /** The code points `trim` removes: the WhiteSpace and LineTerminator
      characters of ECMAScript (section 12.2 and 12.3 of ECMA-262). */
  predicate IsWhite(c: char)
  {
    c == '\t' || c == '\n' || c == '\U{000B}' || c == '\U{000C}' || c == '\r'
    || c == ' ' || c == '\U{00A0}' || c == '\U{1680}'
    || ('\U{2000}' <= c <= '\U{200A}')
    || c == '\U{2028}' || c == '\U{2029}' || c == '\U{202F}' || c == '\U{205F}'
    || c == '\U{3000}' || c == '\U{FEFF}'
  }

  predicate AllWhite(s: string)
  {
    forall i :: 0 <= i < |s| ==> IsWhite(s[i])
  }

  /** Neither end of `s` is white space. */
  predicate Trimmed(s: string)
  {
    |s| > 0 ==> !IsWhite(s[0]) && !IsWhite(s[|s| - 1])
  }

  /** The number of white code points at the start of `s`. */
  function LeadingWhite(s: string): (n: nat)
    ensures n <= |s|
    ensures forall i :: 0 <= i < n ==> IsWhite(s[i])
    ensures n < |s| ==> !IsWhite(s[n])
  {
    if |s| > 0 && IsWhite(s[0]) then 1 + LeadingWhite(s[1..]) else 0
  }

  /** The number of white code points at the end of `s`. */
  function TrailingWhite(s: string): (n: nat)
    ensures n <= |s|
    ensures forall i :: |s| - n <= i < |s| ==> IsWhite(s[i])
    ensures n < |s| ==> !IsWhite(s[|s| - 1 - n])
  {
    if |s| > 0 && IsWhite(s[|s| - 1]) then 1 + TrailingWhite(s[..|s| - 1]) else 0
  }

  /** `s` without its leading and trailing white space. */
  function Trim(s: string): (r: string)
    ensures Trimmed(r)
    ensures |r| <= |s|
    ensures r == [] <==> AllWhite(s)
  {
    var i := LeadingWhite(s);
    if i == |s| then []
    else
      var j := |s| - TrailingWhite(s);
      s[i..j]
  }

  /** `trim` strips exactly the white space around a trimmed core: whatever
      white space surrounds a name, trimming gives the name back. */
  lemma {:induction false} TrimUnique(w1: string, m: string, w2: string)
    requires AllWhite(w1) && AllWhite(w2) && Trimmed(m)
    ensures Trim(w1 + m + w2) == m
  {
    var s := w1 + m + w2;
    if |m| > 0 {
      var i := LeadingWhite(s);
      assert s[|w1|] == m[0];
      assert i == |w1|;
      var t := TrailingWhite(s);
      assert s[|w1| + |m| - 1] == m[|m| - 1];
      assert t == |w2|;
      assert s[|w1|..|w1| + |m|] == m;
    } else {
      forall k | 0 <= k < |s| ensures IsWhite(s[k]) {
        if k < |w1| {
          assert s[k] == w1[k];
        } else {
          assert s[k] == w2[k - |w1|];
        }
      }
    }
  }

  lemma TrimIdempotent(s: string)
    ensures Trim(Trim(s)) == Trim(s)
  {
    TrimUnique([], Trim(s), []);
    assert [] + Trim(s) + [] == Trim(s);
  }

  // ----- Registration --------------------------------------------------------

  datatype Outcome = Added | AlreadyExists | EmptyName

  datatype Registration = Registration(outcome: Outcome, custom: CustomCategories)

  /** `addNewCategory` for the kind selected by the income/expense toggle:
      the trimmed name is ignored when empty, rejected when already known for
      that kind, and otherwise appended to that kind's custom list. */
  function AddCategory(cc: CustomCategories, k: Kind, input: string): (r: Registration)
    ensures r.outcome == EmptyName <==> AllWhite(input)
    ensures r.outcome == AlreadyExists <==> !AllWhite(input) && Trim(input) in Known(cc, k)
    ensures r.outcome == Added <==> !AllWhite(input) && Trim(input) !in Known(cc, k)
    ensures r.outcome != Added ==> r.custom == cc
    ensures r.outcome == Added ==> Custom(r.custom, k) == Custom(cc, k) + [Trim(input)]
    ensures forall other :: other != k ==> Custom(r.custom, other) == Custom(cc, other)
  {
    var name := Trim(input);
    if name == [] then
      Registration(EmptyName, cc)
    else if name in Known(cc, k) then
      Registration(AlreadyExists, cc)
    else
      match k
      case IncomeKind => Registration(Added, cc.(income := cc.income + [name]))
      case ExpenseKind => Registration(Added, cc.(expense := cc.expense + [name]))
  }

  /** The lists the source can build: for each kind no name is known twice,
      and every custom name is nonempty and trimmed. */
  predicate WellFormed(cc: CustomCategories)
  {
    forall k :: Distinct(Known(cc, k))
      && forall i :: 0 <= i < |Custom(cc, k)| ==> Custom(cc, k)[i] != [] && Trimmed(Custom(cc, k)[i])
  }

  lemma DefaultsWellFormed()
    ensures WellFormed(CustomCategories([], []))
  {
    forall k ensures Distinct(Known(CustomCategories([], []), k)) {
      assert Known(CustomCategories([], []), k) == DefaultCategories(k);
    }
  }

  /** Registration keeps the lists well formed. */
  lemma {:induction false} AddPreservesWellFormed(cc: CustomCategories, k: Kind, input: string)
    requires WellFormed(cc)
    ensures WellFormed(AddCategory(cc, k, input).custom)
  {
    var r := AddCategory(cc, k, input);
    if r.outcome == Added {
      var name := Trim(input);
      assert Known(r.custom, k) == Known(cc, k) + [name];
      DistinctAppend(Known(cc, k), name);
      forall j: Kind
        ensures Distinct(Known(r.custom, j))
        ensures forall i :: 0 <= i < |Custom(r.custom, j)| ==> Custom(r.custom, j)[i] != [] && Trimmed(Custom(r.custom, j)[i])
      {
        if j != k {
          assert Custom(r.custom, j) == Custom(cc, j);
        }
      }
    }
  }

  /** Entering the same name twice registers it once. */
  lemma AddTwice(cc: CustomCategories, k: Kind, input: string)
    ensures var r := AddCategory(cc, k, input);
            AddCategory(r.custom, k, input) == Registration(if r.outcome == EmptyName then EmptyName else AlreadyExists, r.custom)
  {
    var r := AddCategory(cc, k, input);
    if r.outcome == Added {
      assert Trim(input) in Known(r.custom, k) by {
        assert Known(r.custom, k)[|Known(r.custom, k)| - 1] == Trim(input);
      }
    }
  }

  /** Surrounding white space does not make a built-in name new. */
  lemma PaddedDefaultExists()
    ensures AddCategory(CustomCategories([], []), ExpenseKind, " Food ").outcome == AlreadyExists
  {
    TrimUnique(" ", "Food", " ");
    assert " " + "Food" + " " == " Food ";
  }

  /** Each kind is checked against its own lists only. */
  lemma OtherKindIsNew()
    ensures AddCategory(CustomCategories([], []), IncomeKind, "Food") == Registration(Added, CustomCategories(["Food"], []))
  {
    TrimUnique([], "Food", []);
    assert [] + "Food" + [] == "Food";
  }

  lemma BlankIsIgnored()
    ensures AddCategory(CustomCategories([], []), IncomeKind, " \t").outcome == EmptyName
  {
    assert AllWhite(" \t");
  }
}
