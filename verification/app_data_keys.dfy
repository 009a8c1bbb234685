/** The keys the native client's app-data query takes. Each is sent as a
    C string, so each carries its own NUL terminator. */
module AppDataKeys {
  import opened Common

  datatype AppDataKey =
    | Name
    | Logo
    | SmallCapsule(language: string)
    | MetacriticScore
    | Developer

  function KeyString(k: AppDataKey): (s: string)
    ensures |s| > 0 && s[|s| - 1] == '\0'
  {
    match k
    case Name => "name\0"
    case SmallCapsule(language) => "small_capsule/" + language + "\0"
    case Logo => "logo\0"
    case MetacriticScore => "metacritic_score\0"
    case Developer => "developer\0"
  }

  /** The language a key string names, read back from the string: the
      inverse of `KeyString` on small-capsule keys. */
  function CapsuleLanguage(s: string): (r: Option<string>)
  {
    if |s| >= 15 && s[..14] == "small_capsule/" && s[|s| - 1] == '\0'
    then Some(s[14..|s| - 1])
    else None
  }

  /** Distinct keys give distinct strings. In particular two capsule keys
      are equal strings exactly when their languages are equal, and a
      capsule key names its language. */
  lemma KeyStringInjective(a: AppDataKey, b: AppDataKey)
    ensures KeyString(a) == KeyString(b) <==> a == b
    ensures a.SmallCapsule? ==> CapsuleLanguage(KeyString(a)) == Some(a.language)
    ensures !a.SmallCapsule? ==> CapsuleLanguage(KeyString(a)).None?
  {
    var sa, sb := KeyString(a), KeyString(b);
    if a.SmallCapsule? {
      assert sa[..14] == "small_capsule/";
      assert sa[14..|sa| - 1] == a.language;
    }
    if b.SmallCapsule? {
      assert sb[..14] == "small_capsule/";
      assert sb[14..|sb| - 1] == b.language;
    }
    assert sa[0] == 's' <==> a.SmallCapsule?;
    assert sb[0] == 's' <==> b.SmallCapsule?;
  }
}
