/** What a JSON value means: arrays keep their order, objects do not, and member names are told apart
    ignoring case, as cJSON's lookups do. */
module CjsonDoc {
  import opened CjsonKeys
  import opened CjsonString
  import opened CjsonText

  /** An object maps folded names to the name as spelled and the value. */
  datatype Doc = Leaf(value: Json) | List(items: seq<Doc>) | Object(members: map<string, Entry>)

  datatype Entry = Entry(name: string, doc: Doc)

  function Fold(s: string): string {
    LowerAll(s)
  }

  function Meaning(v: Json): Doc
    decreases v
  {
    match v
    case Arr(items) => List(seq(|items|, i requires 0 <= i < |items| => Meaning(items[i])))
    case Obj(members) => Object(MeaningMembers(members))
    case _ => Leaf(v)
  }

  /** Of two members with one name the first counts. */
  function MeaningMembers(members: seq<Member>): map<string, Entry>
    decreases members
  {
    if members == [] then map[]
    else MeaningMembers(members[1..])[Fold(members[0].key) := Entry(members[0].key, Meaning(members[0].value))]
  }

  /** Sibling names differ ignoring case, at every level. */
  predicate WellNamed(v: Json)
    decreases v
  {
    match v
    case Arr(items) => forall i :: 0 <= i < |items| ==> WellNamed(items[i])
    case Obj(members) =>
      DistinctNames(members) && forall i :: 0 <= i < |members| ==> WellNamed(members[i].value)
    case _ => true
  }

  predicate DistinctNames(members: seq<Member>) {
    && (forall i :: 0 <= i < |members| ==> NulFree(members[i].key))
    && (forall i, j :: 0 <= i < j < |members| ==> Fold(members[i].key) != Fold(members[j].key))
  }

  // ---------------------------------------------------------------- members and their map

  lemma {:induction false} MemberMeans(members: seq<Member>, i: nat)
    requires DistinctNames(members) && i < |members|
    ensures var m := MeaningMembers(members); var f := Fold(members[i].key);
      f in m && m[f] == Entry(members[i].key, Meaning(members[i].value))
    decreases |members|
  {
    if i > 0 {
      MemberMeans(members[1..], i - 1);
    }
  }

  lemma {:induction false} NameOf(members: seq<Member>, f: string) returns (i: nat)
    requires f in MeaningMembers(members)
    ensures i < |members| && Fold(members[i].key) == f
    decreases |members|
  {
    if Fold(members[0].key) == f {
      i := 0;
    } else {
      i := NameOf(members[1..], f);
      i := i + 1;
    }
  }

  /** The map of a list of members, spelled out. */
  ghost predicate IsMapOf(m: map<string, Entry>, members: seq<Member>) {
    && (forall i :: 0 <= i < |members| ==>
          var f := Fold(members[i].key); f in m && m[f] == Entry(members[i].key, Meaning(members[i].value)))
    && (forall f :: f in m ==> exists i :: 0 <= i < |members| && Fold(members[i].key) == f)
  }

  lemma MapOf(members: seq<Member>)
    requires DistinctNames(members)
    ensures IsMapOf(MeaningMembers(members), members)
  {
    hide MeaningMembers, Meaning, Fold;
    var m := MeaningMembers(members);
    forall i | 0 <= i < |members|
      ensures var f := Fold(members[i].key); f in m && m[f] == Entry(members[i].key, Meaning(members[i].value))
    {
      MemberMeans(members, i);
    }
    forall f | f in m ensures exists i :: 0 <= i < |members| && Fold(members[i].key) == f {
      var i := NameOf(members, f);
    }
  }

  lemma MapIs(members: seq<Member>, m: map<string, Entry>)
    requires DistinctNames(members) && IsMapOf(m, members)
    ensures MeaningMembers(members) == m
  {
    hide MeaningMembers, Meaning, Fold;
    var w := MeaningMembers(members);
    MapOf(members);
    forall f | f in m ensures f in w && w[f] == m[f] {
      var i :| 0 <= i < |members| && Fold(members[i].key) == f;
    }
    forall f | f in w ensures f in m {
      var i :| 0 <= i < |members| && Fold(members[i].key) == f;
    }
  }

  /** Member order does not matter. */
  lemma OrderIrrelevant(a: seq<Member>, b: seq<Member>)
    requires DistinctNames(a) && DistinctNames(b) && multiset(a) == multiset(b)
    ensures MeaningMembers(a) == MeaningMembers(b)
  {
    hide MeaningMembers, Meaning, Fold;
    MapOf(a);
    var m := MeaningMembers(a);
    forall i | 0 <= i < |b|
      ensures var f := Fold(b[i].key); f in m && m[f] == Entry(b[i].key, Meaning(b[i].value))
    {
      assert b[i] in multiset(a);
    }
    forall f | f in m ensures exists i :: 0 <= i < |b| && Fold(b[i].key) == f {
      var i :| 0 <= i < |a| && Fold(a[i].key) == f;
      assert a[i] in multiset(b);
    }
    MapIs(b, m);
  }

  lemma SameName(a: string, b: string)
    requires NulFree(a) && NulFree(b)
    ensures Compare(a, b) == 0 <==> Fold(a) == Fold(b)
  {
    CompareIsEquality(a, b);
  }
}
