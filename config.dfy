/** The two already-parsed configuration files: the recipe (`Cook.toml`)
    and the crate manifest (`Cargo.toml`). Reading and deserialising them
    is not part of this model. */
module Config {
  import opened Wrappers

  /** One `[[cook.ingredient]]` rule. */
  datatype Ingredient = Ingredient(source: string, destination: string, filter: Option<string>)

  /** The `[cook.deploy]` section; everything besides the target list is
      handed to the transport unread. */
  datatype DeploySection = DeploySection(targets: Option<seq<string>>)

  /** The `[cook]` table of the recipe. */
  datatype Cook = Cook(
    ingredient: Option<seq<Ingredient>>,
    targetDirectory: string,
    targetRename: Option<string>,
    cookDirectory: string,
    containers: seq<string>,
    hashes: Option<seq<string>>,
    preCook: Option<string>,
    postCook: Option<string>,
    deploy: Option<DeploySection>)

  /** The `[package]` table of the crate manifest. */
  datatype Package = Package(name: string, version: string)

  /** The configured ingredients; an absent list behaves as an empty one. */
  function Ingredients(c: Cook): seq<Ingredient> {
    c.ingredient.GetOr([])
  }

  /** The configured hash types; an absent list behaves as an empty one. */
  function HashTypes(c: Cook): seq<string> {
    c.hashes.GetOr([])
  }
}
