/**
 * The permission verifier that runs before every command callback: the developer-only
 * gate, then the caller's missing permissions, then the bot's, each denial rendered as a
 * localized private reply.
 */
module Permissions {
  import opened Js

  /**
   * A guild member as the verifier sees it: its id and the permission names that the
   * platform's `permissions.missing(required, true)` reports for the command's
   * required permissions, in the platform's order.
   */
  datatype Member = Member(id: string, lacking: seq<string>)

  /** The message-table keys the verifier uses. */
  datatype MessageKey = DevOnly | PermsUser | PermsBot

  /** The `S`, `A` and `PERMISSIONS` placeholders of a permission message. */
  datatype Substitutions = Substitutions(s: string, a: string, permissions: string)

  /**
   * A `getMessage(key, language, substitutions)` call. The text it yields comes from a
   * message table that is not part of this model, so a reply records the call itself.
   */
  datatype LocalizedMessage = LocalizedMessage(key: MessageKey, language: string, subs: Option<Substitutions>)

  /** `{ content, ephemeral }` */
  datatype Reply = Reply(content: LocalizedMessage, ephemeral: bool)

  /** The grammar helpers of a permission list: plural suffixes and its rendered form. */
  datatype Plural = Plural(s: string, a: string, text: string)

  /** `perms[language][e]` for each name: the localized name, or undefined when the table has none. */
  function Localize(names: map<string, string>, lacking: seq<string>): seq<Option<string>> {
    seq(|lacking|, i requires 0 <= i < |lacking| => if lacking[i] in names then Some(names[lacking[i]]) else None)
  }

  /**
   * The localized list of what a member lacks, where an administrator entry (in either
   * spelling) stands for the whole list.
   */
  function Missing(lacking: seq<string>, names: map<string, string>): (r: seq<Option<string>>)
    ensures |r| == 0 <==> |lacking| == 0
    ensures |r| <= |lacking|
    ensures forall i :: 0 <= i < |r| ==> r[i] in Localize(names, lacking)
    ensures Some("Administrador") in Localize(names, lacking) ==> r == [Some("Administrador")]
    ensures (Some("Administrador") !in Localize(names, lacking) && Some("Administrator") in Localize(names, lacking))
              ==> r == [Some("Administrator")]
    ensures (Some("Administrador") !in Localize(names, lacking) && Some("Administrator") !in Localize(names, lacking))
              ==> r == Localize(names, lacking)
  {
    var miss := Localize(names, lacking);
    if Some("Administrador") in miss then [Some("Administrador")]
    else if Some("Administrator") in miss then [Some("Administrator")]
    else miss
  }

  /** `Array.prototype.join`: an undefined element renders as the empty string. */
  function Join(items: seq<Option<string>>, sep: string): string {
    if items == [] then ""
    else if |items| == 1 then items[0].GetOr("")
    else items[0].GetOr("") + sep + Join(items[1..], sep)
  }

  /** A single element joins to itself, with undefined rendered empty. */
  lemma JoinSingle(x: Option<string>, sep: string)
    ensures Join([x], sep) == x.GetOr("")
  {
  }

  /** Joining two non-empty lists puts one separator between their joined forms. */
  lemma {:induction false} JoinAppend(a: seq<Option<string>>, b: seq<Option<string>>, sep: string)
    requires a != [] && b != []
    ensures Join(a + b, sep) == Join(a, sep) + sep + Join(b, sep)
  {
    assert (a + b)[0] == a[0];
    if |a| == 1 {
      assert (a + b)[1..] == b;
    } else {
      assert (a + b)[1..] == a[1..] + b;
      JoinAppend(a[1..], b, sep);
    }
  }

  /** Plural suffixes of a permission list and its back-quoted, comma-separated form. */
  function Strs(items: seq<Option<string>>): (r: Plural)
    ensures r.s == "s" <==> |items| > 1
    ensures r.s == "" <==> |items| <= 1
    ensures r.a == "ões" <==> |items| > 1
    ensures r.a == "ão" <==> |items| <= 1
    ensures r.text == "`" + Join(items, ", ") + "`"
  {
    Plural(if |items| > 1 then "s" else "",
           if |items| > 1 then "ões" else "ão",
           "`" + Join(items, ", ") + "`")
  }

  /** The placeholders filled in for a permission denial that lists `items`. */
  function PermissionSubs(items: seq<Option<string>>): Substitutions {
    var p := Strs(items);
    Substitutions(p.s, p.a, p.text)
  }

  /** The developer-only gate lets `target` through. */
  predicate DevGatePasses(devsOnly: bool, botOwners: seq<string>, target: Member) {
    !devsOnly || target.id in botOwners
  }

  /**
   * `verify`: `None` allows the command, `Some(reply)` denies it. The developer gate comes
   * first, then the caller's missing permissions, then the bot's (`me`).
   */
  function Verify(reqPerms: seq<string>, botOwners: seq<string>, devsOnly: bool, language: string,
                  names: map<string, string>, target: Member, me: Member): (r: Option<Reply>)
    ensures r.Some? ==> r.value.ephemeral && r.value.content.language == language
    ensures (!DevGatePasses(devsOnly, botOwners, target))
              ==> r == Some(Reply(LocalizedMessage(DevOnly, language, None), true))
    ensures r.None? <==> DevGatePasses(devsOnly, botOwners, target)
                         && (reqPerms == [] || (target.lacking == [] && me.lacking == []))
    ensures (r.Some? && r.value.content.key == PermsUser)
              <==> DevGatePasses(devsOnly, botOwners, target) && reqPerms != [] && target.lacking != []
    ensures (r.Some? && r.value.content.key == PermsBot)
              <==> DevGatePasses(devsOnly, botOwners, target) && reqPerms != [] && target.lacking == [] && me.lacking != []
    ensures (r.Some? && r.value.content.key == PermsUser)
              ==> r.value.content.subs == Some(PermissionSubs(Missing(target.lacking, names)))
    ensures (r.Some? && r.value.content.key == PermsBot)
              ==> r.value.content.subs == Some(PermissionSubs(Missing(me.lacking, names)))
  {
    if devsOnly && target.id !in botOwners then
      Some(Reply(LocalizedMessage(DevOnly, language, None), true))
    else if |reqPerms| > 0 then
      var missMe := Missing(me.lacking, names);
      var missIt := Missing(target.lacking, names);
      if |missIt| > 0 then
        Some(Reply(LocalizedMessage(PermsUser, language, Some(PermissionSubs(missIt))), true))
      else if |missMe| > 0 then
        Some(Reply(LocalizedMessage(PermsBot, language, Some(PermissionSubs(missMe))), true))
      else None
    else None
  }
}
