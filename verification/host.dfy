/** The host (parent) compilation as the plugin sees it: its asset map, updated in place. */
module Host {

  /** `compilation.assets`: asset name to asset source text. */
  class Compilation {
    var assets: map<string, string>

    constructor (assets: map<string, string>)
      ensures this.assets == assets
    {
      this.assets := assets;
    }
  }
}
