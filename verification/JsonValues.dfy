/** JSON values and their plain printed form (sections 2 to 5 and 7 of RFC 8259, without space). */
module JsonValues {
  import opened JsonText

  /** `Verbatim` is a value given by its JSON text: a number, a literal, or any other. */
  datatype Json = Verbatim(text: string) | Str(text: string) | Arr(items: seq<Json>) | Obj(members: seq<Member>)

  datatype Member = Member(key: string, value: Json)

  function PrintJson(j: Json): string
    decreases j, 0
  {
    match j
    case Verbatim(text) => text
    case Str(text) => Dump(text)
    case Arr(items) => "[" + PrintItems(items) + "]"
    case Obj(members) => "{" + PrintMembers(members) + "}"
  }

  function PrintItems(items: seq<Json>): string
    decreases items, 1
  {
    if items == [] then ""
    else if |items| == 1 then PrintJson(items[0])
    else PrintJson(items[0]) + "," + PrintItems(items[1..])
  }

  function PrintMember(m: Member): string
    decreases m, 1
  {
    Dump(m.key) + ":" + PrintJson(m.value)
  }

  function PrintMembers(members: seq<Member>): string
    decreases members, 2
  {
    if members == [] then ""
    else if |members| == 1 then PrintMember(members[0])
    else PrintMember(members[0]) + "," + PrintMembers(members[1..])
  }

  lemma {:induction false} ItemsNext(first: Json, rest: seq<Json>)
    ensures PrintItems([first] + rest) == PrintJson(first) + (if rest == [] then "" else "," + PrintItems(rest))
  {
    hide PrintJson;
    assert ([first] + rest)[1..] == rest;
  }

  lemma {:induction false} MembersNext(first: Member, rest: seq<Member>)
    ensures PrintMembers([first] + rest)
         == PrintMember(first) + (if rest == [] then "" else "," + PrintMembers(rest))
  {
    hide PrintMember;
    assert ([first] + rest)[1..] == rest;
  }

  lemma {:induction false} NothingPrints()
    ensures PrintItems([]) == "" && PrintMembers([]) == ""
  {}
}
